/**
 `extend` on objects in the heap.  Only the target and objects made on the way are changed, so nothing
 is said about sharing among the arguments; they must only be finite trees that do not contain the
 target.
 */
module Extend {
  import M = ExtendModel
  import opened ExtendModel

  /** A property value: a plain object is held by reference. */
  datatype Val = Missing | Ref(ref: int) | Plain(o: JsObject)

  class JsObject {
    var props: map<string, Val>

    constructor ()
      ensures props == map[]
    {
      props := map[];
    }
  }

  /** The value is the tree, made of objects in `world`. */
  ghost predicate Shows(v: Val, t: Tree, world: set<JsObject>)
    reads world
    decreases t, 1
  {
    match t
    case Undefined => v.Missing?
    case Opaque(ref) => v == Ref(ref)
    case Node(m) => v.Plain? && v.o in world && ShowsAll(v.o.props, m, world)
  }

  ghost predicate ShowsAll(props: map<string, Val>, m: Props, world: set<JsObject>)
    reads world
    decreases Node(m), 0
  {
    props.Keys == m.Keys && forall k | k in m :: m[k] < Node(m) && Shows(props[k], m[k], world)
  }

  lemma {:induction false} ShowsInMore(v: Val, t: Tree, world: set<JsObject>, more: set<JsObject>)
    requires Shows(v, t, world) && world <= more
    ensures Shows(v, t, more)
    decreases t, 1
  {
    if t.Node? { ShowsAllInMore(v.o.props, t.props, world, more); }
  }

  lemma {:induction false} ShowsAllInMore(props: map<string, Val>, m: Props, world: set<JsObject>, more: set<JsObject>)
    requires ShowsAll(props, m, world) && world <= more
    ensures ShowsAll(props, m, more)
    decreases Node(m), 0
  {
    forall k | k in m
      ensures Shows(props[k], m[k], more)
    {
      ShowsInMore(props[k], m[k], world, more);
    }
  }

  /** Setting one property that shows a tree made of other objects. */
  lemma SetShown(props: map<string, Val>, m: Props, world: set<JsObject>, key: string, v: Val, t: Tree, add: set<JsObject>)
    requires ShowsAll(props, m, world) && Shows(v, t, add)
    ensures ShowsAll(props[key := v], m[key := t], world + add)
  {
    ShowsInMore(v, t, add, world + add);
    ShowsAllInMore(props, m, world, world + add);
  }

  /** Every key the argument defines holds what the merge assigns, made of objects in `own` only. */
  ghost predicate AssignedFrom(props: map<string, Val>, m: Props, o: Props, done: set<string>, own: set<JsObject>)
    reads own
  {
    forall k | k in done && Defines(o, k) :: k in props && Shows(props[k], Assigned(m, o, k), own)
  }

  lemma MergeNone(m: Props, o: Props)
    ensures MergeOne(m, Restrict(o, {})) == m
  {
  }

  lemma RestrictAll(o: Props, done: set<string>)
    requires done == o.Keys
    ensures Restrict(o, done) == o
  {
  }

  lemma AssignedNext(props: map<string, Val>, m: Props, o: Props, done: set<string>, own: set<JsObject>,
                     key: string, v: Val, add: set<JsObject>)
    requires AssignedFrom(props, m, o, done, own)
    requires Defines(o, key) ==> Shows(v, Assigned(m, o, key), add)
    ensures AssignedFrom(if Defines(o, key) then props[key := v] else props, m, o, done + {key}, own + add)
  {
    forall k | k in done && Defines(o, k)
      ensures Shows(props[k], Assigned(m, o, k), own + add)
    {
      ShowsInMore(props[k], Assigned(m, o, k), own, own + add);
    }
    if Defines(o, key) { ShowsInMore(v, Assigned(m, o, key), add, own + add); }
  }

  /** Objects the old target was made of are still needed only where the argument defines nothing. */
  lemma KeptOrAssigned(was: map<string, Val>, props: map<string, Val>, m: Props, o: Props, kept: set<JsObject>,
                       world: set<JsObject>, own: set<JsObject>)
    requires was.Keys == m.Keys && Untouched(props, was, o, {})
    requires forall k | k in m && !Defines(o, k) :: Shows(was[k], m[k], kept)
    requires ShowsAll(props, MergeOne(m, o), world)
    requires AssignedFrom(props, m, o, o.Keys, own)
    ensures ShowsAll(props, MergeOne(m, o), kept + own)
  {
    forall k | k in MergeOne(m, o)
      ensures Shows(props[k], MergeOne(m, o)[k], kept + own)
    {
      MergeAt(m, o, k);
      ShowsInMore(props[k], MergeOne(m, o)[k], if Defines(o, k) then own else kept, kept + own);
    }
  }

  /** Properties the argument does not define, or that are still to be merged, are as they were. */
  ghost predicate Untouched(props: map<string, Val>, was: map<string, Val>, o: Props, rest: set<string>) {
    forall k | k in was && (k in rest || !Defines(o, k)) :: k in props && props[k] == was[k]
  }

  /** The keys in `done` are merged and those in `rest` are not; the new objects are in `own`. */
  ghost predicate Merging(props: map<string, Val>, was: map<string, Val>, m: Props, o: Props,
                          done: set<string>, rest: set<string>, world: set<JsObject>, own: set<JsObject>)
    reads world, own
  {
    && done !! rest && done + rest == o.Keys
    && ShowsAll(props, MergeOne(m, Restrict(o, done)), world + own)
    && AssignedFrom(props, m, o, done, own)
    && Untouched(props, was, o, rest)
  }

  lemma MergingStarts(props: map<string, Val>, m: Props, o: Props, world: set<JsObject>)
    requires ShowsAll(props, m, world)
    ensures Merging(props, props, m, o, {}, o.Keys, world, {})
  {
    MergeNone(m, o);
    assert world + {} == world;
  }

  lemma MergingEnds(props: map<string, Val>, was: map<string, Val>, m: Props, o: Props, done: set<string>,
                    world: set<JsObject>, own: set<JsObject>)
    requires Merging(props, was, m, o, done, {}, world, own)
    ensures ShowsAll(props, MergeOne(m, o), world + own)
    ensures AssignedFrom(props, m, o, o.Keys, own)
    ensures Untouched(props, was, o, {})
  {
    assert done == o.Keys;
    RestrictAll(o, done);
  }

  lemma MergingNext(props: map<string, Val>, next: map<string, Val>, was: map<string, Val>, m: Props, o: Props,
                    done: set<string>, rest: set<string>, world: set<JsObject>, own: set<JsObject>,
                    key: string, add: set<JsObject>)
    requires Merging(props, was, m, o, done, rest, world, own) && key in rest
    requires Defines(o, key) ==> key in next && Shows(next[key], Assigned(m, o, key), add)
    requires next == if Defines(o, key) then props[key := next[key]] else props
    requires ShowsAll(next, MergeOne(m, Restrict(o, done + {key})), world + own + add)
    ensures Merging(next, was, m, o, done + {key}, rest - {key}, world, own + add)
  {
    AssignedNext(props, m, o, done, own, key, if Defines(o, key) then next[key] else Missing, add);
    assert world + own + add == world + (own + add);
    assert done + {key} + (rest - {key}) == done + rest;
  }

  /** Merges one argument into the target.  The argument may be the target itself. */
  method MergeInto(target: JsObject, obj: JsObject, ghost m: Props, ghost o: Props,
                   ghost world: set<JsObject>, ghost height: nat)
    returns (ghost own: set<JsObject>)
    requires target !in world && (obj == target || obj in world)
    requires ShowsAll(target.props, m, world) && ShowsAll(obj.props, o, world)
    requires Shallow(Node(m), height) && Shallow(Node(o), height)
    modifies target
    ensures fresh(own)
    ensures ShowsAll(target.props, MergeOne(m, o), world + own)
    ensures AssignedFrom(target.props, m, o, o.Keys, own)
    ensures Untouched(target.props, old(target.props), o, {})
    decreases height, 1, 1
  {
    MergingStarts(target.props, m, o, world);
    own := MergeKeys(target, obj, m, o, world, height);
    MergingEnds(target.props, old(target.props), m, o, o.Keys, world, own);
  }

  /** The loop over the keys of one argument: each is read before it is written. */
  method MergeKeys(target: JsObject, obj: JsObject, ghost m: Props, ghost o: Props,
                   ghost world: set<JsObject>, ghost height: nat)
    returns (ghost own: set<JsObject>)
    requires target !in world && (obj == target || obj in world)
    requires ShowsAll(target.props, m, world) && ShowsAll(obj.props, o, world)
    requires Shallow(Node(m), height) && Shallow(Node(o), height)
    requires Merging(target.props, target.props, m, o, {}, o.Keys, world, {})
    modifies target
    ensures fresh(own)
    ensures Merging(target.props, old(target.props), m, o, o.Keys, {}, world, own)
    decreases height, 1, 0
  {
    ghost var was, given := target.props, obj.props;
    var rest := obj.props.Keys;
    ghost var done: set<string> := {};
    own := {};
    while rest != {}
      invariant fresh(own)
      invariant Merging(target.props, was, m, o, done, rest, world, own)
      invariant obj != target ==> obj.props == given
      decreases rest
    {
      var key :| key in rest;
      own := MergeProperty(target, key, obj.props[key], was, m, o, done, rest, world, own, height);
      rest := rest - {key};
      done := done + {key};
    }
    assert done == o.Keys;
  }

  /** One turn of the loop. */
  method MergeProperty(target: JsObject, key: string, value: Val, ghost was: map<string, Val>,
                       ghost m: Props, ghost o: Props, ghost done: set<string>, ghost rest: set<string>,
                       ghost world: set<JsObject>, ghost own: set<JsObject>, ghost height: nat)
    returns (ghost all: set<JsObject>)
    requires target !in world && target !in own && key in rest
    requires Merging(target.props, was, m, o, done, rest, world, own)
    requires ShowsAll(was, m, world) && Shows(value, o[key], world)
    requires Shallow(Node(m), height) && Shallow(Node(o), height)
    modifies target
    ensures own <= all && fresh(all - own)
    ensures Merging(target.props, was, m, o, done + {key}, rest - {key}, world, all)
    decreases height, 0, 1
  {
    ghost var props := target.props;
    ghost var add := MergeKey(target, key, value, m, o, done, world, world + own, height);
    MergingNext(props, target.props, was, m, o, done, rest, world, own, key, add);
    all := own + add;
  }

  /** Assigns one key of the target. */
  method MergeKey(target: JsObject, key: string, value: Val, ghost m: Props, ghost o: Props, ghost done: set<string>,
                  ghost world: set<JsObject>, ghost before: set<JsObject>, ghost height: nat)
    returns (ghost add: set<JsObject>)
    requires key in o && key !in done && target !in before && world <= before
    requires Shows(value, o[key], world)
    requires ShowsAll(target.props, MergeOne(m, Restrict(o, done)), before)
    requires key in m ==> key in target.props && Shows(target.props[key], m[key], world)
    requires Shallow(Node(m), height) && Shallow(Node(o), height)
    modifies target
    ensures fresh(add)
    ensures ShowsAll(target.props, MergeOne(m, Restrict(o, done + {key})), before + add)
    ensures Defines(o, key) ==> key in target.props && Shows(target.props[key], Assigned(m, o, key), add)
    ensures target.props == if Defines(o, key) then old(target.props)[key := target.props[key]] else old(target.props)
    decreases height, 0, 0
  {
    MergeStep(m, o, done, key);
    add := {};
    if value.Missing? {
      assert before + add == before;
      return;
    }
    ghost var merged := MergeOne(m, Restrict(o, done));
    var v := value;
    if value.Plain? {
      var current := if key in target.props then target.props[key] else Missing;
      v, add := Renew(current, value.o, Members(MemberOf(m, key)), o[key].props, world, height - 1);
    }
    SetShown(target.props, merged, before, key, v, Assigned(m, o, key), add);
    target.props := target.props[key := v];
  }

  /** A plain value is replaced by a new object that extends the empty one with the plain value already
      there, if any, and then with the new one. */
  method Renew(current: Val, value: JsObject, ghost c: Props, ghost o: Props, ghost world: set<JsObject>, ghost height: nat)
    returns (v: Val, ghost own: set<JsObject>)
    requires value in world && ShowsAll(value.props, o, world)
    requires if current.Plain? then current.o in world && ShowsAll(current.o.props, c, world) else c == map[]
    requires Shallow(Node(c), height) && Shallow(Node(o), height)
    ensures fresh(own)
    ensures Shows(v, Node(MergeOne(Copy(c), o)), own)
    decreases height, 3
  {
    var copy := new JsObject();
    v := Plain(copy);
    ExtendEmpty(c, o);
    assert [c, o][..0] == [] && [c, o][..1] == [c];
    if current.Plain? {
      own := Extend(copy, [current.o, value], map[], [c, o], world, height);
    } else {
      own := Extend(copy, [value], map[], [o], world, height);
    }
    ShowsAllInMore(copy.props, MergeOne(Copy(c), o), own, own + {copy});
    own := own + {copy};
  }

  /** An argument is a tree of other objects, or the target itself, which then stands for what it has
      become by the time its turn comes. */
  ghost predicate Given(target: JsObject, obj: JsObject, o: Props, soFar: Props, world: set<JsObject>, height: nat)
    reads world
  {
    if obj == target then o == soFar
    else obj in world && ShowsAll(obj.props, o, world) && Shallow(Node(o), height)
  }

  /** Merges the target into itself and then every argument into it.  Afterwards every plain object
      reachable from the target, at any depth, is a new one. */
  method Extend(target: JsObject, inputs: seq<JsObject>, ghost m: Props, ghost os: seq<Props>,
                ghost world: set<JsObject>, ghost height: nat)
    returns (ghost own: set<JsObject>)
    requires target !in world && ShowsAll(target.props, m, world) && inputs != []
    requires |os| == |inputs| && Shallow(Node(m), height)
    requires forall i | 0 <= i < |os| ::
      Given(target, inputs[i], os[i], MergeEach(MergeOne(m, m), os[..i]), world, height)
    modifies target
    ensures fresh(own) && target !in own
    ensures ShowsAll(target.props, M.Extend(m, os), own)
    decreases height, 2, 1
  {
    ghost var was := target.props;
    own := MergeInto(target, target, m, m, world, height);
    KeptOrAssigned(was, target.props, m, m, {}, world + own, own);
    assert {} + own == own;
    MergeIsShallow(m, m, height);
    for i := 0 to |inputs|
      invariant fresh(own) && target !in own
      invariant ShowsAll(target.props, MergeEach(MergeOne(m, m), os[..i]), own)
      invariant Shallow(Node(MergeEach(MergeOne(m, m), os[..i])), height)
    {
      ghost var soFar := MergeEach(MergeOne(m, m), os[..i]);
      assert Given(target, inputs[i], os[i], soFar, world, height);
      own := MergeNext(target, inputs[i], soFar, os[i], world, own, height);
      assert os[..i + 1][..i] == os[..i];
      MergeIsShallow(soFar, os[i], height);
    }
    assert os[..|inputs|] == os;
  }

  /** With one argument, which is merged into the `goradd` object. */
  method ExtendGoradd(goradd: JsObject, obj: JsObject, ghost m: Props, ghost o: Props,
                      ghost world: set<JsObject>, ghost height: nat)
    returns (ghost own: set<JsObject>)
    requires goradd !in world && (obj == goradd || obj in world)
    requires ShowsAll(goradd.props, m, world) && ShowsAll(obj.props, o, world)
    requires Shallow(Node(m), height) && Shallow(Node(o), height)
    modifies goradd
    ensures fresh(own)
    ensures ShowsAll(goradd.props, M.ExtendGoradd(m, o), world + own)
    ensures AssignedFrom(goradd.props, m, o, o.Keys, own)
  {
    own := MergeInto(goradd, obj, m, o, world, height);
  }

  method MergeNext(target: JsObject, obj: JsObject, ghost m: Props, ghost o: Props,
                   ghost world: set<JsObject>, ghost before: set<JsObject>, ghost height: nat)
    returns (ghost own: set<JsObject>)
    requires target !in world && target !in before && Given(target, obj, o, m, world, height)
    requires ShowsAll(target.props, m, before) && Shallow(Node(m), height)
    modifies target
    ensures before <= own && fresh(own - before) && target !in own
    ensures ShowsAll(target.props, MergeOne(m, o), own)
    decreases height, 2, 0
  {
    ghost var all := world + before;
    ghost var was := target.props;
    ShowsAllInMore(target.props, m, before, all);
    if obj != target { ShowsAllInMore(obj.props, o, world, all); }
    ghost var add := MergeInto(target, obj, m, o, all, height);
    KeptOrAssigned(was, target.props, m, o, before, all + add, add);
    own := before + add;
    assert own - before <= add;
  }
}
