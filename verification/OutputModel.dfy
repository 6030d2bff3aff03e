/**
 One request through the error handler and the output buffer: what the handler does, what is held
 back, and what reaches the wire.  A panic is an outcome like any other.
 */
module OutputModel {
  import opened Basics

  type Byte = bv8
  type Bytes = seq<Byte>
  type Header = map<string, seq<string>>

  const STATUS_OK := 200
  const STATUS_INTERNAL_SERVER_ERROR := 500

  // ---------------------------------------------------------------- the connection's own writer

  datatype Commit = Commit(code: int, header: Header)

  /** What the server's response writer has been made to do.  `commits` are the final status lines sent,
      `informational` the 1xx ones before it. */
  datatype Wire = Wire(header: Header, informational: seq<int>, commits: seq<Commit>, body: Bytes)

  predicate ValidCode(code: int) {
    100 <= code <= 999
  }

  /** 1xx codes announce something and commit nothing, except 101. */
  predicate Informational(code: int) {
    100 <= code <= 199 && code != 101
  }

  predicate BodyAllowed(code: int) {
    !(100 <= code <= 199) && code != 204 && code != 304
  }

  /** The server ignores a status after the first, and panics on a code that is not three digits. */
  function WireHeader(w: Wire, code: int): Option<Wire> {
    if w.commits != [] then Some(w)
    else if !ValidCode(code) then None
    else if Informational(code) then Some(w.(informational := w.informational + [code]))
    else Some(w.(commits := [Commit(code, w.header)]))
  }

  /** Returning from a handler, like writing, commits 200 if nothing else was committed. */
  function EnsureCommitted(w: Wire): (r: Wire)
    ensures r.commits != []
  {
    if w.commits != [] then w else w.(commits := [Commit(STATUS_OK, w.header)])
  }

  function WireWrite(w: Wire, b: Bytes): Wire {
    var c := EnsureCommitted(w);
    if BodyAllowed(c.commits[0].code) then c.(body := c.body + b) else c
  }

  /** How many bytes the server takes: none if the status has no body. */
  function Accepted(w: Wire, b: Bytes): nat {
    if BodyAllowed(EnsureCommitted(w).commits[0].code) then |b| else 0
  }

  // ---------------------------------------------------------------- the buffered writer

  /** `buf` is what the output buffer holds. */
  datatype Local = Local(buf: Bytes, code: int, disabled: bool, len: nat, wire: Wire)

  datatype PanicValue =
    | HttpError(message: Bytes, headers: map<string, string>, errCode: int)
    | StatusCode(errCode: int)
    | ServerError(output: Bytes)
    | OtherValue

  datatype Op =
    | Write(b: Bytes)
    | WriteHeader(code: int)
    | SetHeader(key: string, values: seq<string>)
    | ResetOutput
    | OutputLen
    | Disable
    | Return
    | Panic(value: PanicValue)

  /** What an operation tells the handler. */
  datatype Obs = Nothing | Length(n: nat) | Contents(b: Bytes)

  datatype Outcome =
    | Continues(next: Local, obs: Obs)
    | Returns(next: Local)
    | Panics(next: Local, value: PanicValue)

  function Act(l: Local, op: Op): Outcome {
    match op
    case Write(b) =>
      var n := if l.disabled then Accepted(l.wire, b) else |b|;
      Continues(if l.disabled then l.(wire := WireWrite(l.wire, b), len := l.len + n)
                else l.(buf := l.buf + b, len := l.len + n), Length(n))
    case WriteHeader(code) =>
      if !l.disabled then Continues(l.(code := code), Nothing)
      else (match WireHeader(l.wire, code)
            case Some(w) => Continues(l.(wire := w), Nothing)
            case None => Panics(l, OtherValue))
    case SetHeader(key, values) => Continues(l.(wire := l.wire.(header := l.wire.header[key := values])), Nothing)
    case ResetOutput => Continues(l.(buf := []), Contents(l.buf))
    case OutputLen => Continues(l, Length(if l.disabled then l.len else |l.buf|))
    case Disable => Continues(l.(disabled := true), Nothing)
    case Return => Returns(l)
    case Panic(value) => Panics(l, value)
  }

  function IsAscii(s: string): bool {
    forall c | c in s :: c < 128 as char
  }

  predicate ValidateHeader(h: Header) {
    forall k | k in h :: IsAscii(k) && forall v | v in h[k] :: IsAscii(v)
  }

  /** What happens when the handler returns normally: the status, if it is neither unset nor 200, else
      500 for headers that are not ASCII, and then the buffer. */
  function Finish(l: Local): Option<Wire> {
    var w := if l.code != 0 && l.code != STATUS_OK then WireHeader(l.wire, l.code)
             else if !ValidateHeader(l.wire.header) then WireHeader(l.wire, STATUS_INTERNAL_SERVER_ERROR)
             else Some(l.wire);
    match w
    case None => None
    case Some(w) => Some(WireWrite(w, l.buf))
  }

  // ---------------------------------------------------------------- the error handler

  /** The end of a request: a response, or a connection dropped because the error handler panicked. */
  datatype Final = Sent(wire: Wire) | Aborted(wire: Wire)

  function WithHeaders(h: Header, hs: map<string, string>): Header {
    h + map k | k in hs :: [hs[k]]
  }

  function SendStatus(w: Wire, code: int, body: Option<Bytes>): Final {
    match WireHeader(w, code)
    case None => Aborted(w)
    case Some(w) => Sent(EnsureCommitted(if body.Some? then WireWrite(w, body.value) else w))
  }

  function Recover(w: Wire, value: PanicValue): Final {
    match value
    case HttpError(message, headers, code) =>
      SendStatus(w.(header := WithHeaders(w.header, headers)), code, if message != [] then Some(message) else None)
    case StatusCode(code) => SendStatus(w, code, None)
    case ServerError(output) => SendStatus(w, STATUS_INTERNAL_SERVER_ERROR, Some(output))
    case OtherValue => SendStatus(w, STATUS_INTERNAL_SERVER_ERROR, Some([]))
  }

  // ---------------------------------------------------------------- a whole request

  function Fresh(header: Header): Local {
    Local([], 0, false, 0, Wire(header, [], [], []))
  }

  /** A finite handler: a list of operations, which returns when the list is exhausted. */
  function Perform(l: Local, ops: seq<Op>): (o: Outcome)
    ensures !o.Continues?
    decreases |ops|
  {
    if ops == [] then Returns(l) else
      match Act(l, ops[0])
      case Continues(next, _) => Perform(next, ops[1..])
      case done => done
  }

  /** What the output buffer's middleware leaves on the wire, and the panic it lets through, if any. */
  function Unbuffer(o: Outcome): (Wire, Option<PanicValue>)
    requires !o.Continues?
  {
    match o
    case Returns(l) => (match Finish(l) case Some(w) => (w, None) case None => (l.wire, Some(OtherValue)))
    case Panics(l, value) => (l.wire, Some(value))
  }

  function Conclude(o: Outcome): Final
    requires !o.Continues?
  {
    var (w, panic) := Unbuffer(o);
    match panic
    case None => Sent(w)
    case Some(value) => Recover(w, value)
  }

  function Serve(header: Header, ops: seq<Op>): Final {
    Conclude(Perform(Fresh(header), ops))
  }

  // ---------------------------------------------------------------- the reading of a trace

  /** Operations that neither end the handler nor switch buffering off. */
  predicate Plain(ops: seq<Op>) {
    forall op | op in ops :: !op.Return? && !op.Panic? && !op.Disable?
  }

  function LastCode(ops: seq<Op>): int {
    if ops == [] then 0 else
      var op := ops[|ops| - 1];
      if op.WriteHeader? then op.code else LastCode(ops[..|ops| - 1])
  }

  /** What was written since the last reset. */
  function SinceReset(ops: seq<Op>): Bytes {
    if ops == [] then [] else
      var before, op := ops[..|ops| - 1], ops[|ops| - 1];
      if op.ResetOutput? then [] else if op.Write? then SinceReset(before) + op.b else SinceReset(before)
  }

  function HeadersAfter(header: Header, ops: seq<Op>): Header {
    if ops == [] then header else
      var before, op := ops[..|ops| - 1], ops[|ops| - 1];
      if op.SetHeader? then HeadersAfter(header, before)[op.key := op.values] else HeadersAfter(header, before)
  }

  function Untouched(header: Header): Wire {
    Wire(header, [], [], [])
  }

  /** While buffering is on, the wire is not touched and the buffer holds what the trace says. */
  ghost predicate Reflects(l: Local, header: Header, ops: seq<Op>) {
    && !l.disabled
    && l.buf == SinceReset(ops)
    && l.code == LastCode(ops)
    && l.wire == Untouched(HeadersAfter(header, ops))
  }

  lemma PlainStep(l: Local, header: Header, ops: seq<Op>, op: Op)
    requires Reflects(l, header, ops) && Plain([op])
    ensures Act(l, op).Continues? && Reflects(Act(l, op).next, header, ops + [op])
  {
    assert op in [op];
    assert (ops + [op])[..|ops|] == ops;
  }

  lemma {:induction false} PlainPerform(l: Local, ops: seq<Op>, rest: seq<Op>)
    requires Plain(ops) && !l.disabled
    ensures Perform(l, ops).Returns? && Perform(l, ops + rest) == Perform(Perform(l, ops).next, rest)
    decreases |ops|
  {
    if ops == [] {
      assert ops + rest == rest;
    } else {
      assert ops[0] in ops;
      PlainPerform(Act(l, ops[0]).next, ops[1..], rest);
      assert (ops + rest)[1..] == ops[1..] + rest;
    }
  }

  lemma {:induction false} PlainReflects(l: Local, header: Header, done: seq<Op>, ops: seq<Op>)
    requires Reflects(l, header, done) && Plain(ops)
    ensures Reflects(Perform(l, ops).next, header, done + ops)
    decreases |ops|
  {
    if ops == [] {
      assert done + ops == done;
    } else {
      assert Plain([ops[0]]) && Plain(ops[1..]);
      PlainStep(l, header, done, ops[0]);
      PlainReflects(Act(l, ops[0]).next, header, done + [ops[0]], ops[1..]);
      assert done + [ops[0]] + ops[1..] == done + ops;
    }
  }

  lemma PlainPrefix(l: Local, header: Header, done: seq<Op>, ops: seq<Op>, rest: seq<Op>) returns (m: Local)
    requires Reflects(l, header, done) && Plain(ops)
    ensures Reflects(m, header, done + ops)
    ensures Perform(l, ops + rest) == Perform(m, rest)
    ensures m == Perform(l, ops).next
  {
    PlainPerform(l, ops, rest);
    PlainReflects(l, header, done, ops);
    m := Perform(l, ops).next;
  }

  // ---------------------------------------------------------------- theorems about one request

  /** The status a normal return is meant to have. */
  function IntendedCode(header: Header, ops: seq<Op>): int {
    var code := LastCode(ops);
    if code != 0 && code != STATUS_OK then code
    else if ValidateHeader(HeadersAfter(header, ops)) then STATUS_OK else STATUS_INTERNAL_SERVER_ERROR
  }

  lemma FinishPlain(m: Local, header: Header, ops: seq<Op>)
    requires Reflects(m, header, ops)
    ensures var code, h, body := IntendedCode(header, ops), HeadersAfter(header, ops), SinceReset(ops);
      Conclude(Returns(m)) == Sent(
        if !ValidCode(code) then Wire(h, [], [Commit(STATUS_INTERNAL_SERVER_ERROR, h)], [])
        else if Informational(code) then Wire(h, [code], [Commit(STATUS_OK, h)], body)
        else Wire(h, [], [Commit(code, h)], if BodyAllowed(code) then body else []))
  {
    Regroup(SinceReset(ops), [], []);
  }

  /** A normal return commits one status: the last one set, or 200, or 500 for invalid headers.  The
      body is what was written since the last reset.  A code that announces something goes out before
      a 200, and one that is not a status at all becomes an empty 500. */
  lemma NormalReturn(header: Header, ops: seq<Op>)
    requires Plain(ops)
    ensures var code, h, body := IntendedCode(header, ops), HeadersAfter(header, ops), SinceReset(ops);
      Serve(header, ops) == Sent(
        if !ValidCode(code) then Wire(h, [], [Commit(STATUS_INTERNAL_SERVER_ERROR, h)], [])
        else if Informational(code) then Wire(h, [code], [Commit(STATUS_OK, h)], body)
        else Wire(h, [], [Commit(code, h)], if BodyAllowed(code) then body else []))
  {
    var m := PlainPrefix(Fresh(header), header, [], ops, []);
    assert [] + ops == ops && ops + [] == ops;
    FinishPlain(m, header, ops);
  }

  /** `sent` has the keys of both; the error's own values replace those set before, and all others are
      kept. */
  ghost predicate Overrides(sent: Header, before: Header, own: map<string, string>) {
    && (forall k :: k in sent <==> k in before || k in own)
    && (forall k | k in own :: sent[k] == [own[k]])
    && (forall k | k in before && k !in own :: sent[k] == before[k])
  }

  lemma HeadersOverride(h: Header, hs: map<string, string>)
    ensures Overrides(WithHeaders(h, hs), h, hs)
  {
  }

  ghost predicate HasHighChar(s: string) {
    exists i | 0 <= i < |s| :: s[i] as int >= 128
  }

  /** Some key or some value of the header has a character outside ASCII. */
  ghost predicate HasNonAscii(h: Header) {
    exists k | k in h :: HasHighChar(k) || exists i | 0 <= i < |h[k]| :: HasHighChar(h[k][i])
  }

  lemma AsciiMeans(s: string)
    ensures IsAscii(s) <==> !HasHighChar(s)
  {
    if IsAscii(s) {
      forall i | 0 <= i < |s| ensures (s[i] as int) < 128 { assert s[i] in s; }
    }
  }

  lemma ValidateMeans(h: Header)
    ensures ValidateHeader(h) <==> !HasNonAscii(h)
  {
    forall s: string ensures IsAscii(s) <==> !HasHighChar(s) { AsciiMeans(s); }
    forall k | k in h
      ensures (forall v | v in h[k] :: IsAscii(v)) <==> !(exists i | 0 <= i < |h[k]| :: HasHighChar(h[k][i]))
    {
      if forall v | v in h[k] :: IsAscii(v) {
        forall i | 0 <= i < |h[k]| ensures !HasHighChar(h[k][i]) { assert h[k][i] in h[k]; }
      }
    }
  }

  /** The status of a handler that returns without having set one, or having set 200, is 500 exactly when
      some key or value of its headers is not ASCII. */
  lemma InvalidHeaderIff(header: Header, ops: seq<Op>)
    requires Plain(ops) && (LastCode(ops) == 0 || LastCode(ops) == 200)
    ensures var w := Serve(header, ops).wire;
      |w.commits| == 1 && w.commits[0].code == if HasNonAscii(HeadersAfter(header, ops)) then 500 else 200
  {
    NormalReturn(header, ops);
    ValidateMeans(HeadersAfter(header, ops));
  }

  /** Of the statuses a handler may set before it returns, exactly 101, 204 and 304 send no body, and exactly
      those from 100 to 199 other than 101 leave the response a 200. */
  lemma StatusBody(header: Header, ops: seq<Op>)
    requires Plain(ops) && 100 <= LastCode(ops) <= 999 && LastCode(ops) != 200
    ensures var w, code := Serve(header, ops).wire, LastCode(ops);
      && |w.commits| == 1
      && w.commits[0].code == (if 100 <= code < 200 && code != 101 then 200 else code)
      && w.informational == (if 100 <= code < 200 && code != 101 then [code] else [])
      && w.body == if code == 101 || code == 204 || code == 304 then [] else SinceReset(ops)
  {
    NormalReturn(header, ops);
  }

  // ---------------------------------------------------------------- what a handler is told

  /** All bytes handed to `Write`, whether they were reset or not. */
  function Written(ops: seq<Op>): nat {
    if ops == [] then 0 else (if ops[0].Write? then |ops[0].b| else 0) + Written(ops[1..])
  }

  lemma {:induction false} PlainCounts(l: Local, ops: seq<Op>)
    requires Plain(ops) && !l.disabled
    ensures Perform(l, ops).next.len == l.len + Written(ops)
    decreases |ops|
  {
    if ops != [] {
      assert ops[0] in ops;
      PlainCounts(Act(l, ops[0]).next, ops[1..]);
    }
  }

  /** While buffering is on, a handler is told how much it wrote, how much is waiting to be sent, and, on
      a reset, what that was. */
  lemma HandlerObserves(header: Header, ops: seq<Op>, op: Op)
    requires Plain(ops)
    ensures var o := Act(Perform(Fresh(header), ops).next, op);
      && (op.Write? ==> o.Continues? && o.obs == Length(|op.b|))
      && (op.OutputLen? ==> o.Continues? && o.obs == Length(|SinceReset(ops)|))
      && (op.ResetOutput? ==> o.Continues? && o.obs == Contents(SinceReset(ops)))
  {
    var m := PlainPrefix(Fresh(header), header, [], ops, []);
    assert [] + ops == ops;
  }

  lemma WriteUnbuffered(m: Local, h: Header, b: Bytes)
    requires m.wire == Untouched(h)
    ensures Perform(m, [Disable, Write(b)]) ==
            Returns(m.(disabled := true, wire := Wire(h, [], [Commit(STATUS_OK, h)], b), len := m.len + |b|))
  {
    var d := m.(disabled := true);
    assert [] + b == b;
    assert [Disable, Write(b)][1..] == [Write(b)];
    assert Perform(m, [Disable, Write(b)]) == Perform(d, [Write(b)]);
    var w := Act(d, Write(b)).next;
    assert [Write(b)][1..] == [];
    assert Perform(d, [Write(b)]) == Perform(w, []) == Returns(w);
  }

  /** Once buffering is off, the length told is not what was written to the client: bytes buffered before
      count as well, sent or not.  It is right exactly if nothing had been written by then. */
  lemma DisabledLenCountsBuffered(header: Header, ops: seq<Op>, b: Bytes)
    requires Plain(ops)
    ensures var o := Act(Perform(Fresh(header), ops + [Disable, Write(b)]).next, OutputLen);
      && o.Continues? && o.next.wire.body == b
      && o.obs == Length(Written(ops) + |b|)
      && (o.obs == Length(|o.next.wire.body|) <==> Written(ops) == 0)
  {
    PlainCounts(Fresh(header), ops);
    var m := PlainPrefix(Fresh(header), header, [], ops, [Disable, Write(b)]);
    assert [] + ops == ops;
    WriteUnbuffered(m, HeadersAfter(header, ops), b);
  }

  /** A panic with an http error sends its code, the headers set so far overridden by its own, and its
      message, and none of the buffered bytes.  A code that is not a status drops the connection. */
  lemma HttpErrorPanic(header: Header, ops: seq<Op>, message: Bytes, headers: map<string, string>, code: int, rest: seq<Op>)
    requires Plain(ops)
    ensures var h := WithHeaders(HeadersAfter(header, ops), headers);
      Serve(header, ops + ([Panic(HttpError(message, headers, code))] + rest)) ==
        if !ValidCode(code) then Aborted(Untouched(h))
        else if Informational(code) then Sent(Wire(h, [code], [Commit(STATUS_OK, h)], message))
        else Sent(Wire(h, [], [Commit(code, h)], if BodyAllowed(code) then message else []))
    ensures var w := Serve(header, ops + ([Panic(HttpError(message, headers, code))] + rest)).wire;
      && Overrides(w.header, HeadersAfter(header, ops), headers)
      && forall i | 0 <= i < |w.commits| :: Overrides(w.commits[i].header, HeadersAfter(header, ops), headers)
  {
    HeadersOverride(HeadersAfter(header, ops), headers);
    var p := Panic(HttpError(message, headers, code));
    var m := PlainPrefix(Fresh(header), header, [], ops, [p] + rest);
    assert [] + ops == ops;
    assert Perform(m, [p] + rest) == Panics(m, p.value);
    assert [] + message == message;
  }

  /** Any other panic sends 500 and, for a server error, its replacement output; again nothing that was
      buffered. */
  lemma OtherPanic(header: Header, ops: seq<Op>, value: PanicValue, rest: seq<Op>)
    requires Plain(ops) && (value.ServerError? || value.OtherValue?)
    ensures var h := HeadersAfter(header, ops);
      Serve(header, ops + ([Panic(value)] + rest)) ==
        Sent(Wire(h, [], [Commit(STATUS_INTERNAL_SERVER_ERROR, h)], if value.ServerError? then value.output else []))
  {
    var m := PlainPrefix(Fresh(header), header, [], ops, [Panic(value)] + rest);
    assert [] + ops == ops;
    assert Perform(m, [Panic(value)] + rest) == Panics(m, value);
    if value.ServerError? { assert [] + value.output == value.output; }
  }

  lemma StatusCodePanic(header: Header, ops: seq<Op>, code: int, rest: seq<Op>)
    requires Plain(ops)
    ensures var h := HeadersAfter(header, ops);
      Serve(header, ops + ([Panic(StatusCode(code))] + rest)) ==
        if !ValidCode(code) then Aborted(Untouched(h))
        else if Informational(code) then Sent(Wire(h, [code], [Commit(STATUS_OK, h)], []))
        else Sent(Wire(h, [], [Commit(code, h)], []))
  {
    var p := Panic(StatusCode(code));
    var m := PlainPrefix(Fresh(header), header, [], ops, [p] + rest);
    assert [] + ops == ops;
    assert Perform(m, [p] + rest) == Panics(m, p.value);
  }

  lemma {:induction false} PerformKeepsOneCommit(l: Local, ops: seq<Op>)
    requires |l.wire.commits| <= 1
    ensures |Perform(l, ops).next.wire.commits| <= 1
    decreases |ops|
  {
    if ops != [] {
      var o := Act(l, ops[0]);
      assert |o.next.wire.commits| <= 1;
      if o.Continues? { PerformKeepsOneCommit(o.next, ops[1..]); }
    }
  }

  lemma RecoverCommitsOnce(w: Wire, value: PanicValue)
    requires |w.commits| <= 1
    ensures var f := Recover(w, value);
      if f.Sent? then |f.wire.commits| == 1 else f.wire.commits == []
  {
  }

  lemma FinishCommitsOnce(l: Local)
    requires |l.wire.commits| <= 1 && Finish(l).Some?
    ensures |Finish(l).value.commits| == 1
  {
  }

  lemma ConcludeCommitsOnce(o: Outcome)
    requires !o.Continues? && |o.next.wire.commits| <= 1
    ensures var f := Conclude(o);
      if f.Sent? then |f.wire.commits| == 1 else f.wire.commits == []
  {
    match o
    case Returns(l) =>
      if Finish(l).Some? { FinishCommitsOnce(l); } else { RecoverCommitsOnce(l.wire, OtherValue); }
    case Panics(l, value) => RecoverCommitsOnce(l.wire, value);
  }

  /** Whatever the handler does, buffered or not, a response that is sent commits exactly one status. */
  lemma ExactlyOneCommit(header: Header, ops: seq<Op>)
    ensures Serve(header, ops).Sent? ==> |Serve(header, ops).wire.commits| == 1
    ensures Serve(header, ops).Aborted? ==> Serve(header, ops).wire.commits == []
  {
    PerformKeepsOneCommit(Fresh(header), ops);
    ConcludeCommitsOnce(Perform(Fresh(header), ops));
  }

  // ---------------------------------------------------------------- where the guarantees stop

  function LastNonzero(ops: seq<Op>): int {
    if ops == [] then 0 else
      var op := ops[|ops| - 1];
      if op.WriteHeader? && op.code != 0 then op.code else LastNonzero(ops[..|ops| - 1])
  }

  /** The status sent is the last one set, not the last nonzero one: setting zero undoes a status. */
  lemma ZeroUndoesStatus()
    ensures var ops := [WriteHeader(404), WriteHeader(0)];
      LastNonzero(ops) == 404 && Serve(map[], ops) == Sent(Wire(map[], [], [Commit(STATUS_OK, map[])], []))
  {
    var ops := [WriteHeader(404), WriteHeader(0)];
    NormalReturn(map[], ops);
    assert ops[..1] == [WriteHeader(404)];
  }

  lemma {:induction false} LastCodeOrZero(ops: seq<Op>)
    ensures LastCode(ops) == 0 || LastCode(ops) == LastNonzero(ops)
  {
    if ops != [] { LastCodeOrZero(ops[..|ops| - 1]); }
  }

  /** The last nonzero status is the one sent exactly when no later call set zero, or when the fallback
      happens to be the same 500. */
  lemma LastNonzeroIsSentUnlessUndone(header: Header, ops: seq<Op>)
    requires Plain(ops)
    requires var code := LastNonzero(ops);
      code != 0 && code != STATUS_OK && ValidCode(code) && !Informational(code)
    ensures var f := Serve(header, ops);
      && f.Sent? && |f.wire.commits| == 1
      && (f.wire.commits[0].code == LastNonzero(ops) <==>
            || LastCode(ops) != 0
            || (LastNonzero(ops) == STATUS_INTERNAL_SERVER_ERROR && !ValidateHeader(HeadersAfter(header, ops))))
  {
    NormalReturn(header, ops);
    LastCodeOrZero(ops);
  }

  function Writes(bs: seq<Bytes>): seq<Op> {
    if bs == [] then [] else [Write(bs[0])] + Writes(bs[1..])
  }

  function Concat(bs: seq<Bytes>): Bytes {
    if bs == [] then [] else bs[0] + Concat(bs[1..])
  }

  lemma {:induction false} StreamedWrites(l: Local, bs: seq<Bytes>)
    requires l.disabled && (l.wire.commits != [] ==> l.wire.commits[0].code == STATUS_OK)
    ensures var m := Perform(l, Writes(bs));
      && m.Returns? && m.next.buf == l.buf && m.next.code == l.code && m.next.wire.header == l.wire.header
      && m.next.wire == if bs == [] then l.wire else EnsureCommitted(l.wire).(body := l.wire.body + Concat(bs))
    decreases |bs|
  {
    if bs == [] {
    } else {
      var next := Act(l, Write(bs[0])).next;
      StreamedWrites(next, bs[1..]);
      assert Writes(bs)[1..] == Writes(bs[1..]);
      assert l.wire.body + bs[0] + Concat(bs[1..]) == l.wire.body + Concat(bs);
      if bs[1..] == [] { assert l.wire.body + bs[0] == l.wire.body + Concat(bs); }
    }
  }

  /** Once a 200 is committed, returning only appends the buffer. */
  lemma FinishCommitted(l: Local)
    requires l.wire.commits != [] && l.wire.commits[0].code == STATUS_OK
    ensures Conclude(Returns(l)) == Sent(l.wire.(body := l.wire.body + l.buf))
  {
  }

  lemma AppendedNothing(a: Bytes, b: Bytes)
    ensures a + b == a <==> b == []
  {
    assert |a + b| == |a| + |b|;
  }

  lemma DisableThenWrites(l: Local, bs: seq<Bytes>)
    ensures Perform(l, [Disable] + Writes(bs)) == Perform(l.(disabled := true), Writes(bs))
  {
    var ops := [Disable] + Writes(bs);
    assert ops[0] == Disable && ops[1..] == Writes(bs);
  }

  /** Blocks written after the switch go out at once, and the buffer after them. */
  lemma DisabledTail(m: Local, h: Header, bs: seq<Bytes>)
    requires m.wire == Untouched(h) && bs != []
    ensures var f := Conclude(Perform(m, [Disable] + Writes(bs)));
      && f.Sent? && |f.wire.commits| == 1 && f.wire.commits[0].code == STATUS_OK
      && f.wire.body == Concat(bs) + m.buf
  {
    var d := m.(disabled := true);
    DisableThenWrites(m, bs);
    StreamedWrites(d, bs);
    Regroup(Concat(bs), [], []);
    FinishCommitted(Perform(d, Writes(bs)).next);
  }

  /** Output buffered before buffering is switched off still goes out, after what was streamed. */
  lemma DisablingStillSendsBuffer(header: Header, ops: seq<Op>, bs: seq<Bytes>)
    requires Plain(ops) && bs != []
    ensures var f := Serve(header, ops + ([Disable] + Writes(bs)));
      && f.Sent? && |f.wire.commits| == 1 && f.wire.commits[0].code == STATUS_OK
      && f.wire.body == Concat(bs) + SinceReset(ops)
  {
    var m := PlainPrefix(Fresh(header), header, [], ops, [Disable] + Writes(bs));
    Regroup(ops, [], []);
    DisabledTail(m, HeadersAfter(header, ops), bs);
  }

  function WithoutBuffer(o: Outcome): Outcome {
    match o
    case Continues(l, obs) => Continues(l.(buf := []), obs)
    case Returns(l) => Returns(l.(buf := []))
    case Panics(l, value) => Panics(l.(buf := []), value)
  }

  /** Once buffering is off, nothing but the end of the handler looks at the buffer. */
  lemma {:induction false} DisabledIgnoresBuffer(l: Local, ops: seq<Op>)
    requires l.disabled
    ensures Perform(l.(buf := []), ops) == WithoutBuffer(Perform(l, ops))
    decreases |ops|
  {
    if ops != [] {
      var o, p := Act(l, ops[0]), Act(l.(buf := []), ops[0]);
      assert o.next.disabled && p.next == o.next.(buf := []);
      if o.Continues? { DisabledIgnoresBuffer(o.next, ops[1..]); }
    }
  }

  /** Without a reset after the switch the buffer still holds what it held then. */
  lemma {:induction false} DisabledKeepsBuffer(l: Local, ops: seq<Op>)
    requires l.disabled
    ensures Perform(l, ops).next.buf == l.buf || Perform(l, ops).next.buf == []
    ensures (forall op | op in ops :: !op.ResetOutput?) ==> Perform(l, ops).next.buf == l.buf
    decreases |ops|
  {
    if ops != [] {
      var o := Act(l, ops[0]);
      assert ops[0] in ops;
      if o.Continues? {
        assert forall op | op in ops[1..] :: op in ops;
        DisabledKeepsBuffer(o.next, ops[1..]);
      }
    }
  }

  lemma DisabledFrom(header: Header, ops: seq<Op>, rest: seq<Op>) returns (l: Local)
    requires Plain(ops)
    ensures l.disabled && l.buf == SinceReset(ops)
    ensures Perform(Fresh(header), ops + ([Disable] + rest)) == Perform(l, rest)
    ensures Perform(Fresh(header), ops + ([ResetOutput, Disable] + rest)) == Perform(l.(buf := []), rest)
  {
    var m := PlainPrefix(Fresh(header), header, [], ops, [Disable] + rest);
    var same := PlainPrefix(Fresh(header), header, [], ops, [ResetOutput, Disable] + rest);
    assert [] + ops == ops;
    l := m.(disabled := true);
    assert ([Disable] + rest)[1..] == rest;
    assert ([ResetOutput, Disable] + rest)[1..] == [Disable] + rest;
  }

  /** The response is the one that would have been sent had the buffer been emptied first. */
  predicate BufferWithheld(header: Header, ops: seq<Op>, rest: seq<Op>) {
    Serve(header, ops + ([Disable] + rest)) == Serve(header, ops + ([ResetOutput, Disable] + rest))
  }

  lemma FinishSendsBuffer(l: Local)
    ensures Conclude(Returns(l)) == Conclude(Returns(l.(buf := []))) <==>
            l.buf == [] || Finish(l).None? || !BodyAllowed(Finish(l).value.commits[0].code)
  {
    var e := l.(buf := []);
    if Finish(l).Some? {
      AppendedNothing(EnsureCommitted(Finish(e).value).body, l.buf);
    }
  }

  /** Whatever the handler does after switching buffering off, what it had buffered before is withheld
      exactly when the handler panics, or has left the buffer empty by the time it returns, or its final
      status is none at all or has no body. */
  lemma DisablingWithholdsBufferIff(header: Header, ops: seq<Op>, rest: seq<Op>)
    requires Plain(ops)
    ensures var o := Perform(Fresh(header), ops + ([Disable] + rest));
      BufferWithheld(header, ops, rest) <==>
      || o.Panics?
      || o.next.buf == []
      || Finish(o.next).None?
      || !BodyAllowed(Finish(o.next).value.commits[0].code)
    ensures var o := Perform(Fresh(header), ops + ([Disable] + rest));
      && (o.next.buf == SinceReset(ops) || o.next.buf == [])
      && ((forall op | op in rest :: !op.ResetOutput?) ==> o.next.buf == SinceReset(ops))
  {
    var l := DisabledFrom(header, ops, rest);
    DisabledKeepsBuffer(l, rest);
    DisabledIgnoresBuffer(l, rest);
    var o := Perform(l, rest);
    if o.Returns? { FinishSendsBuffer(o.next); }
  }
}
