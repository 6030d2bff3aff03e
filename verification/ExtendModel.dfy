/**
 What `extend` means on finite trees of plain objects.  Anything that is not a plain object is copied
 by reference and is one opaque value here.
 */
module ExtendModel {
  datatype Tree = Undefined | Opaque(ref: int) | Node(props: map<string, Tree>)

  type Props = map<string, Tree>

  /** The members of a plain object, or none. */
  function Members(t: Tree): Props {
    if t.Node? then t.props else map[]
  }

  function MemberOf(m: Props, k: string): Tree {
    if k in m then m[k] else Undefined
  }

  predicate Defines(m: Props, k: string) {
    k in m && !m[k].Undefined?
  }

  // ---------------------------------------------------------------- what the code computes

  /** A copy of a plain object: extending the empty object with it. */
  function Copy(o: Props): Props
    decreases Node(o)
  {
    map k | k in o && !o[k].Undefined? :: if o[k].Node? then Node(Copy(o[k].props)) else o[k]
  }

  /** The target after merging one argument into it: a plain member is replaced by a fresh object that
      copies the old plain member, if there is one, and then the new one. */
  function MergeOne(m: Props, o: Props): Props
    decreases Node(o)
  {
    map k | k in m.Keys + o.Keys && (k in m || !o[k].Undefined?) ::
      if !Defines(o, k) then m[k]
      else if o[k].Node? then Node(MergeOne(Copy(Members(MemberOf(m, k))), o[k].props))
      else o[k]
  }

  function MergeEach(m: Props, inputs: seq<Props>): Props {
    if inputs == [] then m else MergeOne(MergeEach(m, inputs[..|inputs| - 1]), inputs[|inputs| - 1])
  }

  /** With further arguments, the target itself comes first among the arguments merged. */
  function Extend(target: Props, inputs: seq<Props>): Props
    requires inputs != []
  {
    MergeEach(MergeOne(target, target), inputs)
  }

  /** With one argument, the target is the `goradd` object and the argument is merged into it. */
  function ExtendGoradd(goradd: Props, input: Props): Props {
    MergeOne(goradd, input)
  }

  // ---------------------------------------------------------------- the reference

  /** Right-biased deep merge that skips undefined members. */
  function DeepMerge(m: Props, o: Props): Props
    decreases Node(o)
  {
    map k | k in m.Keys + o.Keys && (k in m || !o[k].Undefined?) ::
      if !Defines(o, k) then m[k]
      else if o[k].Node? then Node(DeepMerge(Members(MemberOf(m, k)), o[k].props))
      else o[k]
  }

  function Fold(m: Props, inputs: seq<Props>): Props {
    if inputs == [] then m else DeepMerge(Fold(m, inputs[..|inputs| - 1]), inputs[|inputs| - 1])
  }

  /** The same object with undefined members dropped from its plain sub-objects, at every depth. */
  function Tidy(m: Props): Props {
    map k | k in m :: if m[k].Node? then Node(Copy(m[k].props)) else m[k]
  }

  predicate AllDefined(o: Props)
    decreases Node(o)
  {
    forall k | k in o :: !o[k].Undefined? && (o[k].Node? ==> AllDefined(o[k].props))
  }

  /** No plain sub-object has an undefined member. */
  predicate SubobjectsDefined(m: Props) {
    forall k | k in m && m[k].Node? :: AllDefined(m[k].props)
  }

  // ---------------------------------------------------------------- lemmas

  lemma {:induction false} CopyTwice(o: Props)
    ensures Copy(Copy(o)) == Copy(o)
    decreases Node(o)
  {
    forall k | k in o && o[k].Node?
      ensures Copy(Copy(o[k].props)) == Copy(o[k].props)
    {
      CopyTwice(o[k].props);
    }
  }

  lemma {:induction false} CopyThenMergeSame(o: Props)
    ensures MergeOne(Copy(o), o) == Copy(o)
    decreases Node(o)
  {
    var c := Copy(o);
    forall k | k in c
      ensures MergeOne(c, o)[k] == c[k]
    {
      if o[k].Node? {
        CopyTwice(o[k].props);
        CopyThenMergeSame(o[k].props);
      }
    }
    assert MergeOne(c, o).Keys == c.Keys;
  }

  /** Merging the target into itself only tidies its plain sub-objects. */
  lemma SelfMergeTidies(m: Props)
    ensures MergeOne(m, m) == Tidy(m)
  {
    forall k | k in m
      ensures MergeOne(m, m)[k] == Tidy(m)[k]
    {
      if m[k].Node? { CopyThenMergeSame(m[k].props); }
    }
  }

  lemma {:induction false} CopyOfMerge(a: Props, b: Props)
    ensures Copy(DeepMerge(a, b)) == MergeOne(Copy(a), b)
    decreases Node(b)
  {
    var l, r := Copy(DeepMerge(a, b)), MergeOne(Copy(a), b);
    assert l.Keys == r.Keys;
    forall k | k in l
      ensures l[k] == r[k]
    {
      if Defines(b, k) && b[k].Node? {
        var m := Members(MemberOf(a, k));
        CopyOfMerge(m, b[k].props);
        CopyTwice(m);
        assert Copy(Members(MemberOf(Copy(a), k))) == Copy(m);
      }
    }
  }

  lemma TidyOfMerge(m: Props, o: Props)
    ensures Tidy(DeepMerge(m, o)) == MergeOne(Tidy(m), o)
  {
    forall k | k in DeepMerge(m, o)
      ensures Tidy(DeepMerge(m, o))[k] == MergeOne(Tidy(m), o)[k]
    {
      if Defines(o, k) && o[k].Node? {
        var c := Members(MemberOf(m, k));
        CopyOfMerge(c, o[k].props);
        CopyTwice(c);
        assert Copy(Members(MemberOf(Tidy(m), k))) == Copy(c);
      }
    }
    assert Tidy(DeepMerge(m, o)).Keys == MergeOne(Tidy(m), o).Keys;
  }

  lemma {:induction false} MergeEachIsTidyFold(target: Props, inputs: seq<Props>)
    ensures MergeEach(MergeOne(target, target), inputs) == Tidy(Fold(target, inputs))
  {
    if inputs == [] {
      SelfMergeTidies(target);
    } else {
      MergeEachIsTidyFold(target, inputs[..|inputs| - 1]);
      TidyOfMerge(Fold(target, inputs[..|inputs| - 1]), inputs[|inputs| - 1]);
    }
  }

  /** `extend` is the left fold of the deep merge, up to undefined members of plain sub-objects, which
      it drops. */
  lemma ExtendIsTidyFold(target: Props, inputs: seq<Props>)
    requires inputs != []
    ensures Extend(target, inputs) == Tidy(Fold(target, inputs))
  {
    MergeEachIsTidyFold(target, inputs);
  }

  /** The target among the further arguments adds nothing: by then it is tidy. */
  lemma TargetAgainChangesNothing(target: Props, inputs: seq<Props>)
    ensures var soFar := MergeEach(MergeOne(target, target), inputs);
      MergeOne(soFar, soFar) == soFar
  {
    MergeEachIsTidyFold(target, inputs);
    SelfMergeTidies(Tidy(Fold(target, inputs)));
    TidyTwice(Fold(target, inputs));
  }

  lemma TidyTwice(m: Props)
    ensures Tidy(Tidy(m)) == Tidy(m)
  {
    forall k | k in m && m[k].Node?
      ensures Copy(Copy(m[k].props)) == Copy(m[k].props)
    {
      CopyTwice(m[k].props);
    }
  }

  /** With one argument, each key the argument defines gets the deep merge of the two, tidied, and every
      other key of `goradd` is left exactly as it was. */
  lemma ExtendGoraddMerges(goradd: Props, input: Props, k: string)
    ensures var r := ExtendGoradd(goradd, input);
      && (k in r <==> k in DeepMerge(goradd, input))
      && (k in r ==> r[k] == if Defines(input, k) then Tidy(DeepMerge(goradd, input))[k] else goradd[k])
  {
    if Defines(input, k) && input[k].Node? {
      CopyOfMerge(Members(MemberOf(goradd, k)), input[k].props);
    }
  }

  lemma {:induction false} CopyIsSameIff(o: Props)
    ensures Copy(o) == o <==> AllDefined(o)
    decreases Node(o)
  {
    forall k | k in o && o[k].Node?
      ensures Copy(o[k].props) == o[k].props <==> AllDefined(o[k].props)
    {
      CopyIsSameIff(o[k].props);
    }
    if AllDefined(o) {
      assert Copy(o).Keys == o.Keys;
    }
    if Copy(o) == o {
      forall k | k in o
        ensures !o[k].Undefined? && (o[k].Node? ==> AllDefined(o[k].props))
      {
        assert k in Copy(o) && Copy(o)[k] == o[k];
      }
    }
  }

  lemma TidyIsSameIff(m: Props)
    ensures Tidy(m) == m <==> SubobjectsDefined(m)
  {
    forall k | k in m && m[k].Node?
      ensures Copy(m[k].props) == m[k].props <==> AllDefined(m[k].props)
    {
      CopyIsSameIff(m[k].props);
    }
    if Tidy(m) == m {
      forall k | k in m && m[k].Node? ensures AllDefined(m[k].props) { assert Tidy(m)[k] == m[k]; }
    }
  }

  lemma {:induction false} MergeDefined(a: Props, b: Props)
    requires AllDefined(a)
    ensures AllDefined(DeepMerge(a, b))
    decreases Node(b)
  {
    var r := DeepMerge(a, b);
    forall k | k in r
      ensures !r[k].Undefined? && (r[k].Node? ==> AllDefined(r[k].props))
    {
      if Defines(b, k) && b[k].Node? {
        MergeDefined(Members(MemberOf(a, k)), b[k].props);
      }
    }
  }

  lemma {:induction false} FoldDefined(m: Props, inputs: seq<Props>)
    requires SubobjectsDefined(m)
    ensures SubobjectsDefined(Fold(m, inputs))
  {
    if inputs != [] {
      var before, o := Fold(m, inputs[..|inputs| - 1]), inputs[|inputs| - 1];
      FoldDefined(m, inputs[..|inputs| - 1]);
      var r := DeepMerge(before, o);
      forall k | k in r && r[k].Node?
        ensures AllDefined(r[k].props)
      {
        if Defines(o, k) && o[k].Node? {
          MergeDefined(Members(MemberOf(before, k)), o[k].props);
        }
      }
    }
  }

  /** Merging the target into itself first makes no difference, for any arguments, exactly when none of
      the target's plain sub-objects has an undefined member. */
  lemma ExtendIsFoldIff(target: Props)
    ensures (forall inputs | inputs != [] :: Extend(target, inputs) == Fold(target, inputs)) <==> SubobjectsDefined(target)
  {
    if SubobjectsDefined(target) {
      forall inputs | inputs != []
        ensures Extend(target, inputs) == Fold(target, inputs)
      {
        ExtendIsTidyFold(target, inputs);
        FoldDefined(target, inputs);
        TidyIsSameIff(Fold(target, inputs));
      }
    } else {
      var nothing: seq<Props> := [map[]];
      ExtendIsTidyFold(target, nothing);
      TidyIsSameIff(target);
      assert nothing[..0] == [];
      assert Fold(target, nothing) == DeepMerge(target, map[]) == target;
      assert Extend(target, nothing) != Fold(target, nothing);
    }
  }

  // ---------------------------------------------------------------- the merge, leaf by leaf

  /** What is found by following a path of keys through plain objects. */
  function At(t: Tree, path: seq<string>): Tree {
    if path == [] then t
    else if t.Node? && path[0] in t.props then At(t.props[path[0]], path[1..])
    else Undefined
  }

  /** The argument defines something on the way along this path other than a plain object that goes on. */
  predicate Overrides(o: Props, path: seq<string>)
    requires path != []
    decreases |path|
  {
    Defines(o, path[0]) && (if o[path[0]].Node? && |path| > 1 then Overrides(o[path[0]].props, path[1..]) else true)
  }

  /** A value that is not a plain object is at the end of a path in the merge exactly if it is there in the
      argument, or it is there in the target and the argument does not override the path. */
  lemma {:induction false} LeafOfMerge(m: Props, o: Props, path: seq<string>, ref: int)
    requires path != []
    ensures At(Node(DeepMerge(m, o)), path) == Opaque(ref) <==>
            || At(Node(o), path) == Opaque(ref)
            || (At(Node(m), path) == Opaque(ref) && !Overrides(o, path))
    decreases |path|
  {
    var k, rest := path[0], path[1..];
    if Defines(o, k) && o[k].Node? {
      var c := Members(MemberOf(m, k));
      if rest != [] {
        LeafOfMerge(c, o[k].props, rest, ref);
      }
    }
  }

  // ---------------------------------------------------------------- merging key by key

  function Restrict(o: Props, ks: set<string>): Props {
    map k | k in o && k in ks :: o[k]
  }

  lemma CopyIsMerge(o: Props)
    ensures MergeOne(map[], o) == Copy(o)
    decreases Node(o)
  {
    forall k | k in o && o[k].Node?
      ensures MergeOne(map[], o[k].props) == Copy(o[k].props)
    {
      CopyIsMerge(o[k].props);
    }
    assert Copy(map[]) == map[];
    assert MergeOne(map[], o).Keys == Copy(o).Keys;
  }

  /** The object a plain member is replaced by is an extension of the empty object. */
  lemma ExtendEmpty(a: Props, b: Props)
    ensures Extend(map[], [a, b]) == MergeOne(Copy(a), b)
    ensures Extend(map[], [b]) == MergeOne(Copy(map[]), b)
  {
    CopyIsMerge(a);
    assert MergeOne(map[], map[]) == map[] && Copy(map[]) == map[];
    assert [a, b][..1] == [a] && [a][..0] == [] && [b][..0] == [];
    assert MergeEach(map[], [a]) == MergeOne(map[], a);
  }

  /** What a merge assigns to a key. */
  function Assigned(m: Props, o: Props, k: string): Tree
    requires Defines(o, k)
  {
    if o[k].Node? then Node(MergeOne(Copy(Members(MemberOf(m, k))), o[k].props)) else o[k]
  }

  lemma MergeAt(m: Props, o: Props, k: string)
    ensures k in MergeOne(m, o) <==> k in m || Defines(o, k)
    ensures Defines(o, k) ==> MergeOne(m, o)[k] == Assigned(m, o, k)
    ensures k in m && !Defines(o, k) ==> MergeOne(m, o)[k] == m[k]
  {
  }

  lemma MergeStep(m: Props, o: Props, done: set<string>, k: string)
    requires k in o && k !in done
    ensures var before, after := MergeOne(m, Restrict(o, done)), MergeOne(m, Restrict(o, done + {k}));
      && MemberOf(before, k) == MemberOf(m, k)
      && after == if o[k].Undefined? then before else before[k := Assigned(m, o, k)]
  {
    var p, q := Restrict(o, done), Restrict(o, done + {k});
    var before, after := MergeOne(m, p), MergeOne(m, q);
    MergeAt(m, p, k);
    MergeAt(m, q, k);
    var expected := if o[k].Undefined? then before else before[k := Assigned(m, o, k)];
    forall j
      ensures j in after <==> j in expected
      ensures j in after ==> after[j] == expected[j]
    {
      MergeAt(m, p, j);
      MergeAt(m, q, j);
      assert j != k ==> (Defines(p, j) <==> Defines(q, j));
      assert Defines(q, j) ==> Assigned(m, q, j) == Assigned(m, o, j);
      assert Defines(p, j) ==> Assigned(m, p, j) == Assigned(m, o, j);
    }
  }

  // ---------------------------------------------------------------- depth

  /** No path through plain objects is longer than `n`. */
  ghost predicate Shallow(t: Tree, n: nat)
    decreases t
  {
    t.Node? ==> n > 0 && forall k | k in t.props :: Shallow(t.props[k], n - 1)
  }

  lemma {:induction false} ShallowInMore(t: Tree, n: nat, more: nat)
    requires Shallow(t, n) && n <= more
    ensures Shallow(t, more)
  {
    if t.Node? {
      forall k | k in t.props ensures Shallow(t.props[k], more - 1) { ShallowInMore(t.props[k], n - 1, more - 1); }
    }
  }

  lemma {:induction false} ShallowAll(m: Props, ks: set<string>) returns (n: nat)
    requires ks <= m.Keys
    ensures forall k | k in ks :: Shallow(m[k], n)
    decreases Node(m), ks
  {
    if ks == {} {
      n := 0;
    } else {
      var k :| k in ks;
      var a := ShallowAll(m, ks - {k});
      var b := EveryTreeIsShallow(m[k]);
      n := a + b;
      forall j | j in ks ensures Shallow(m[j], n) { ShallowInMore(m[j], if j == k then b else a, n); }
    }
  }

  /** Every tree has a depth. */
  lemma {:induction false} EveryTreeIsShallow(t: Tree) returns (n: nat)
    ensures Shallow(t, n)
    decreases t
  {
    match t
    case Node(m) =>
      var a := ShallowAll(m, m.Keys);
      n := a + 1;
    case _ => n := 0;
  }

  lemma {:induction false} CopyIsShallow(o: Props, n: nat)
    requires Shallow(Node(o), n)
    ensures Shallow(Node(Copy(o)), n)
    decreases Node(o)
  {
    forall k | k in Copy(o)
      ensures Shallow(Copy(o)[k], n - 1)
    {
      if o[k].Node? { CopyIsShallow(o[k].props, n - 1); }
    }
  }

  lemma {:induction false} MergeIsShallow(m: Props, o: Props, n: nat)
    requires Shallow(Node(m), n) && Shallow(Node(o), n)
    ensures Shallow(Node(MergeOne(m, o)), n)
    decreases Node(o)
  {
    forall k | k in MergeOne(m, o)
      ensures Shallow(MergeOne(m, o)[k], n - 1)
    {
      MergeAt(m, o, k);
      if Defines(o, k) && o[k].Node? {
        var c := Members(MemberOf(m, k));
        assert Shallow(Node(c), n - 1) by { assert Shallow(o[k], n - 1); }
        CopyIsShallow(c, n - 1);
        MergeIsShallow(Copy(c), o[k].props, n - 1);
      }
    }
  }
}
