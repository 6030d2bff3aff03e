/**
 The two middlewares as the program runs them, over a real buffer from the pool.  A panic is a value
 handed back by the callee.
 */
module Output {
  import opened Basics
  import M = OutputModel
  import opened OutputModel
  import opened Buffers

  /** Whether every header key and value is ASCII. */
  method CheckHeader(h: Header) returns (ok: bool)
    ensures ok <==> ValidateHeader(h)
    ensures ok <==> !HasNonAscii(h)
  {
    ValidateMeans(h);
    var rest := h.Keys;
    while rest != {}
      invariant rest <= h.Keys
      invariant forall k | k in h && k !in rest :: IsAscii(k) && forall v | v in h[k] :: IsAscii(v)
      decreases rest
    {
      var k :| k in rest;
      if !IsAscii(k) {
        return false;
      }
      for i := 0 to |h[k]|
        invariant forall v | v in h[k][..i] :: IsAscii(v)
      {
        if !IsAscii(h[k][i]) {
          return false;
        }
        assert h[k][..i + 1] == h[k][..i] + [h[k][i]];
      }
      assert h[k][..|h[k]|] == h[k];
      rest := rest - {k};
    }
    ok := true;
  }

  /** The server's own response writer. */
  class ResponseWriter {
    var wire: Wire

    constructor (header: Header)
      ensures wire == Untouched(header)
    {
      wire := Untouched(header);
    }

    method WriteHeader(code: int) returns (ok: bool)
      modifies this
      ensures ok <==> M.WireHeader(old(wire), code).Some?
      ensures wire == if ok then M.WireHeader(old(wire), code).value else old(wire)
    {
      var w := M.WireHeader(wire, code);
      ok := w.Some?;
      if w.Some? {
        wire := w.value;
      }
    }

    method Write(b: Bytes) returns (n: nat)
      modifies this
      ensures wire == M.WireWrite(old(wire), b) && n == M.Accepted(old(wire), b)
    {
      n := M.Accepted(wire, b);
      wire := M.WireWrite(wire, b);
    }

    method SetHeaders(headers: map<string, string>)
      modifies this
      ensures wire == old(wire).(header := WithHeaders(old(wire).header, headers))
      ensures Overrides(wire.header, old(wire).header, headers)
    {
      var rest := headers.Keys;
      while rest != {}
        invariant rest <= headers.Keys
        invariant wire == old(wire).(header := WithHeaders(old(wire).header, headers - rest))
        decreases rest
      {
        var k :| k in rest;
        WithHeadersStep(old(wire).header, headers, rest, k);
        wire := wire.(header := wire.header[k := [headers[k]]]);
        rest := rest - {k};
      }
      assert headers - rest == headers;
      HeadersOverride(old(wire).header, headers);
    }
  }

  /** Setting one more of the headers. */
  lemma WithHeadersStep(h: Header, hs: map<string, string>, rest: set<string>, k: string)
    requires k in rest && k in hs
    ensures WithHeaders(h, hs - (rest - {k})) == WithHeaders(h, hs - rest)[k := [hs[k]]]
  {
  }

  class BufferedResponseWriter {
    const raw: ResponseWriter
    const buf: Buffer
    var code: int
    var disabled: bool
    var len: nat

    ghost predicate Valid()
      reads this, buf
    {
      buf.Valid()
    }

    ghost function Value(): Local
      requires Valid()
      reads this, buf, buf.data, raw
    {
      Local(buf.Contents(), code, disabled, len, raw.wire)
    }

    constructor (raw: ResponseWriter, buf: Buffer)
      requires buf.Valid()
      ensures this.raw == raw && this.buf == buf && Valid()
      ensures Value() == Local(buf.Contents(), 0, false, 0, raw.wire)
    {
      this.raw, this.buf, code, disabled, len := raw, buf, 0, false, 0;
    }

    method Write(b: Bytes) returns (n: nat)
      requires Valid()
      modifies this, raw, buf, buf.data
      ensures Valid() && M.Act(old(Value()), M.Write(b)) == Continues(Value(), Length(n))
      ensures buf.data == old(buf.data) || fresh(buf.data)
    {
      if disabled {
        n := raw.Write(b);
      } else {
        buf.Write(b);
        n := |b|;
      }
      len := len + n;
    }

    method WriteHeader(code: int) returns (ok: bool)
      requires Valid()
      modifies `code, raw
      ensures Valid() && Value() == M.Act(old(Value()), M.WriteHeader(code)).next
      ensures ok <==> M.Act(old(Value()), M.WriteHeader(code)).Continues?
    {
      if disabled {
        ok := raw.WriteHeader(code);
        return;
      }
      this.code := code;
      ok := true;
    }

    method Disable()
      requires Valid()
      modifies `disabled
      ensures Valid() && Value() == M.Act(old(Value()), M.Disable).next
    {
      disabled := true;
    }

    method OutputLen() returns (n: nat)
      requires Valid()
      ensures M.Act(Value(), M.OutputLen) == Continues(Value(), Length(n))
    {
      n := if disabled then len else buf.len;
    }

    /** Returns a view of the buffer's own array.  It shows the old output until something is written. */
    method ResetOutputBuffer() returns (view: array<Byte>, n: nat)
      requires Valid()
      modifies buf`len
      ensures Valid() && Value() == M.Act(old(Value()), M.ResetOutput).next
      ensures view == buf.data && n <= view.Length && view[..n] == old(buf.Contents())
    {
      view, n := buf.data, buf.len;
      buf.Reset();
    }

    /** Carries out one operation of a handler; `done` when the handler returns. */
    method Do(op: Op) returns (done: bool, panic: Option<PanicValue>)
      requires Valid()
      modifies this, raw, buf, buf.data
      ensures Valid() && (buf.data == old(buf.data) || fresh(buf.data))
      ensures var o := M.Act(old(Value()), op);
        && Value() == o.next
        && (done <==> o.Returns?)
        && panic == if o.Panics? then Some(o.value) else None
    {
      done, panic := false, None;
      match op
      case Write(b) => var _ := Write(b);
      case WriteHeader(code) =>
        var ok := WriteHeader(code);
        if !ok { panic := Some(OtherValue); }
      case SetHeader(key, values) => raw.wire := raw.wire.(header := raw.wire.header[key := values]);
      case ResetOutput => var _, _ := ResetOutputBuffer();
      case OutputLen => var _ := OutputLen();
      case Disable => Disable();
      case Return => done := true;
      case Panic(value) => panic := Some(value);
    }

    /** Runs a handler to its end. */
    method Run(ops: seq<Op>) returns (panic: Option<PanicValue>)
      requires Valid()
      modifies this, raw, buf, buf.data
      ensures Valid() && (buf.data == old(buf.data) || fresh(buf.data))
      ensures M.Perform(old(Value()), ops) ==
              if panic.None? then Returns(Value()) else Panics(Value(), panic.value)
    {
      panic := None;
      var done := false;
      var i := 0;
      while i < |ops| && !done && panic.None?
        invariant 0 <= i <= |ops| && Valid() && (buf.data == old(buf.data) || fresh(buf.data))
        invariant !done && panic.None? ==> M.Perform(old(Value()), ops) == M.Perform(Value(), ops[i..])
        invariant done && panic.None? ==> M.Perform(old(Value()), ops) == Returns(Value())
        invariant panic.Some? ==> M.Perform(old(Value()), ops) == Panics(Value(), panic.value)
        invariant !(done && panic.Some?)
      {
        assert ops[i..][1..] == ops[i + 1..];
        done, panic := Do(ops[i]);
        i := i + 1;
      }
    }
  }

  /** What follows a handler that returned: its status, and then its output. */
  method SendBuffered(bw: BufferedResponseWriter) returns (panic: Option<PanicValue>)
    requires bw.Valid()
    modifies bw.raw
    ensures (bw.raw.wire, panic) == M.Unbuffer(Returns(old(bw.Value())))
  {
    var ok := true;
    if bw.code != 0 && bw.code != STATUS_OK {
      ok := bw.raw.WriteHeader(bw.code);
    } else {
      var valid := CheckHeader(bw.raw.wire.header);
      if !valid {
        ok := bw.raw.WriteHeader(STATUS_INTERNAL_SERVER_ERROR);
      }
    }
    if ok {
      var _ := bw.raw.Write(bw.buf.data[..bw.buf.len]);
      panic := None;
    } else {
      panic := Some(OtherValue);
    }
  }

  /** Buffers a handler's output and sends it when the handler returns.  The buffer goes back to the
      pool whether or not the handler panics. */
  method WithBufferedOutput(pool: Pool, w: ResponseWriter, ops: seq<Op>) returns (panic: Option<PanicValue>)
    requires pool.Valid()
    modifies pool, w, pool.free, set b | b in pool.free :: b.data
    ensures pool.Valid() && pool.lent == old(pool.lent)
    ensures (w.wire, panic) == M.Unbuffer(M.Perform(M.Local([], 0, false, 0, old(w.wire)), ops))
  {
    var outBuf := pool.GetBuffer();
    var bw := new BufferedResponseWriter(w, outBuf);
    label running:
    panic := bw.Run(ops);
    pool.WriteIsPrivate@running(outBuf);
    if panic.None? {
      panic := SendBuffered(bw);
    }
    pool.PutBuffer(outBuf);
  }

  /** Turns panics into responses.  Fails only if sending the error's own status panics.  Returning
      commits 200 if nothing has been committed. */
  method WithErrorHandler(pool: Pool, w: ResponseWriter, ops: seq<Op>) returns (sent: bool)
    requires pool.Valid()
    modifies pool, w, pool.free, set b | b in pool.free :: b.data
    ensures pool.Valid() && pool.lent == old(pool.lent)
    ensures M.Conclude(M.Perform(M.Local([], 0, false, 0, old(w.wire)), ops)) ==
            if sent then Sent(M.EnsureCommitted(w.wire)) else Aborted(w.wire)
  {
    var panic := WithBufferedOutput(pool, w, ops);
    if panic.None? {
      return true;
    }
    match panic.value
    case HttpError(message, headers, code) =>
      w.SetHeaders(headers);
      sent := w.WriteHeader(code);
      if sent && message != [] {
        var _ := w.Write(message);
      }
    case StatusCode(code) =>
      sent := w.WriteHeader(code);
    case ServerError(output) =>
      sent := w.WriteHeader(STATUS_INTERNAL_SERVER_ERROR);
      if sent { var _ := w.Write(output); }
    case OtherValue =>
      sent := w.WriteHeader(STATUS_INTERNAL_SERVER_ERROR);
      if sent { var _ := w.Write([]); }
  }
}
