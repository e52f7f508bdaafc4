/**
 * The order of a nested release: whatever else runs between its steps, a tree
 * of scopes is disposed in the reverse of the order it was registered in.
 */
module NestedRelease {
  import opened Wrappers
  import opened Startup

  // ---- Flattening a tree of scopes ----

  /** One item of a scope's list: something of its own, or the place of a scope under it. */
  datatype Node<+X> = Leaf(value: X) | Sub(scope: nat)

  /** The leaves under scope `s`, each scope's in the place where its parent lists it. */
  function Flat<X>(lists: seq<seq<Node<X>>>, s: nat): seq<X>
    requires s < |lists|
    decreases |lists| - s, |lists[s]| + 1
  {
    FlatItems(lists, s, lists[s])
  }

  function FlatItems<X>(lists: seq<seq<Node<X>>>, s: nat, items: seq<Node<X>>): seq<X>
    requires s < |lists|
    decreases |lists| - s, |items|
  {
    if items == [] then []
    else FlatItems(lists, s, items[..|items| - 1]) + FlatItem(lists, s, items[|items| - 1])
  }

  /** A scope is created before those under it, so its number is the lower. */
  function FlatItem<X>(lists: seq<seq<Node<X>>>, s: nat, item: Node<X>): seq<X>
    requires s < |lists|
    decreases |lists| - s, 0
  {
    match item
    case Leaf(x) => [x]
    case Sub(c) => if s < c < |lists| then Flat(lists, c) else []
  }

  lemma {:induction false} FlatItemsOfBoth<X>(lists: seq<seq<Node<X>>>, s: nat, a: seq<Node<X>>, b: seq<Node<X>>)
    requires s < |lists|
    ensures FlatItems(lists, s, a + b) == FlatItems(lists, s, a) + FlatItems(lists, s, b)
  {
    if b == [] {
      assert a + b == a;
    } else {
      assert (a + b)[..|a + b| - 1] == a + b[..|b| - 1];
      FlatItemsOfBoth(lists, s, a, b[..|b| - 1]);
    }
  }

  lemma {:induction false} FlatItemsOfOne<X>(lists: seq<seq<Node<X>>>, s: nat, item: Node<X>)
    requires s < |lists|
    ensures FlatItems(lists, s, [item]) == FlatItem(lists, s, item)
  {
    assert [item][..0] == [];
  }

  /** Every scope a list names is its owner's child. */
  ghost predicate Parented<X>(scopes: seq<Scope>, lists: seq<seq<Node<X>>>) {
    && |lists| == |scopes|
    && forall s, c: nat :: 0 <= s < |lists| && Sub(c) in lists[s] ==> s < c < |scopes| && scopes[c].parent == Some(s)
  }

  ghost predicate AgreeUnder<X>(scopes: seq<Scope>, lists: seq<seq<Node<X>>>, lists': seq<seq<Node<X>>>, s: nat)
    requires ParentsFirst(scopes)
  {
    && |lists| == |scopes| <= |lists'|
    && forall t :: 0 <= t < |scopes| && IsUnder(scopes, t, s) ==> lists'[t] == lists[t]
  }

  /** What is flattened depends on the lists of the scopes under `s` alone. */
  lemma {:induction false} FlatFrame<X>(scopes: seq<Scope>, lists: seq<seq<Node<X>>>, lists': seq<seq<Node<X>>>, s: nat)
    requires ParentsFirst(scopes) && Parented(scopes, lists) && AgreeUnder(scopes, lists, lists', s) && s < |lists|
    ensures Flat(lists', s) == Flat(lists, s)
    decreases |lists| - s, |lists[s]| + 1
  {
    assert IsUnder(scopes, s, s);
    forall c: nat | Sub(c) in lists[s]
      ensures AgreeUnder(scopes, lists, lists', c)
    {
      ChildrensUnder(scopes, c, s);
    }
    FlatItemsFrame(scopes, lists, lists', s, lists[s]);
  }

  lemma {:induction false} ChildrensUnder(scopes: seq<Scope>, c: nat, s: nat)
    requires ParentsFirst(scopes) && c < |scopes| && scopes[c].parent == Some(s)
    ensures forall t :: 0 <= t < |scopes| && IsUnder(scopes, t, c) ==> IsUnder(scopes, t, s)
  {
    forall t | 0 <= t < |scopes| && IsUnder(scopes, t, c)
      ensures IsUnder(scopes, t, s)
    {
      UnderParent(scopes, t, c, s);
    }
  }

  lemma {:induction false} FlatItemsFrame<X>(scopes: seq<Scope>, lists: seq<seq<Node<X>>>, lists': seq<seq<Node<X>>>,
                                             s: nat,
                                             items: seq<Node<X>>)
    requires ParentsFirst(scopes) && Parented(scopes, lists) && |lists| <= |lists'| && s < |lists|
    requires forall item :: item in items ==> item in lists[s]
    requires forall c: nat :: Sub(c) in items ==> AgreeUnder(scopes, lists, lists', c)
    ensures FlatItems(lists', s, items) == FlatItems(lists, s, items)
    decreases |lists| - s, |items|
  {
    if items != [] {
      var n := |items| - 1;
      FlatItemsFrame(scopes, lists, lists', s, items[..n]);
      if items[n].Sub? {
        assert Sub(items[n].scope) in items && items[n] in lists[s];
        FlatFrame(scopes, lists, lists', items[n].scope);
      }
    }
  }

  /** Each list under `s` reversed, all of it is. */
  lemma {:induction false} FlatReversed<X>(scopes: seq<Scope>, lists: seq<seq<Node<X>>>, lists': seq<seq<Node<X>>>,
                                           s: nat)
    requires ParentsFirst(scopes) && Parented(scopes, lists) && |lists'| == |lists| && s < |lists|
    requires forall t :: 0 <= t < |scopes| && IsUnder(scopes, t, s) ==> lists'[t] == Reverse(lists[t])
    ensures Flat(lists', s) == Reverse(Flat(lists, s))
    decreases |lists| - s, |lists[s]| + 1
  {
    assert IsUnder(scopes, s, s);
    forall c: nat | Sub(c) in lists[s]
      ensures ReversedUnder(scopes, lists, lists', c)
    {
      ChildrensUnder(scopes, c, s);
    }
    FlatItemsReversed(scopes, lists, lists', s, lists[s]);
  }

  ghost predicate ReversedUnder<X>(scopes: seq<Scope>, lists: seq<seq<Node<X>>>, lists': seq<seq<Node<X>>>, s: nat)
    requires ParentsFirst(scopes)
  {
    && |lists| == |scopes| == |lists'|
    && forall t :: 0 <= t < |scopes| && IsUnder(scopes, t, s) ==> lists'[t] == Reverse(lists[t])
  }

  lemma {:induction false} FlatItemsReversed<X>(scopes: seq<Scope>, lists: seq<seq<Node<X>>>, lists': seq<seq<Node<X>>>,
                                                s: nat, items: seq<Node<X>>)
    requires ParentsFirst(scopes) && Parented(scopes, lists) && |lists| == |lists'| && s < |lists|
    requires forall item :: item in items ==> item in lists[s]
    requires forall c: nat :: Sub(c) in items ==> ReversedUnder(scopes, lists, lists', c)
    ensures FlatItems(lists', s, Reverse(items)) == Reverse(FlatItems(lists, s, items))
    decreases |lists| - s, |items|
  {
    if items != [] {
      var front, item := items[..|items| - 1], items[|items| - 1];
      assert items == front + [item];
      FlatItemsReversed(scopes, lists, lists', s, front);
      FlatItemReversed(scopes, lists, lists', s, item);
      ReversedOneMore(lists, lists', s, front, item);
    }
  }

  lemma {:induction false} FlatItemReversed<X>(scopes: seq<Scope>, lists: seq<seq<Node<X>>>, lists': seq<seq<Node<X>>>,
                                               s: nat, item: Node<X>)
    requires ParentsFirst(scopes) && Parented(scopes, lists) && |lists| == |lists'| && s < |lists|
    requires item in lists[s] && (item.Sub? ==> ReversedUnder(scopes, lists, lists', item.scope))
    ensures FlatItem(lists', s, item) == Reverse(FlatItem(lists, s, item))
    decreases |lists| - s, 0
  {
    if item.Sub? {
      FlatReversed(scopes, lists, lists', item.scope);
    }
  }

  lemma {:induction false} ReversedOneMore<X>(lists: seq<seq<Node<X>>>, lists': seq<seq<Node<X>>>, s: nat,
                                              front: seq<Node<X>>, item: Node<X>)
    requires |lists| == |lists'| && s < |lists|
    requires FlatItems(lists', s, Reverse(front)) == Reverse(FlatItems(lists, s, front))
    requires FlatItem(lists', s, item) == Reverse(FlatItem(lists, s, item))
    ensures FlatItems(lists', s, Reverse(front + [item])) == Reverse(FlatItems(lists, s, front + [item]))
  {
    FlatItemsOfBoth(lists, s, front, [item]);
    FlatItemsOfOne(lists, s, item);
    ReverseOfBoth(FlatItems(lists, s, front), FlatItem(lists, s, item));
    ReverseOfBoth(front, [item]);
    assert Reverse([item]) == [item];
    FlatItemsOfBoth(lists', s, [item], Reverse(front));
    FlatItemsOfOne(lists', s, item);
  }

  lemma {:induction false} ReverseOfBoth<T>(a: seq<T>, b: seq<T>)
    ensures Reverse(a + b) == Reverse(b) + Reverse(a)
  {
  }

  // ---- Where a release has come to ----

  function NodesOf(items: seq<Item>): (nodes: seq<Node<nat>>)
    ensures |nodes| == |items|
    ensures forall k :: 0 <= k < |items| ==>
              nodes[k] == match items[k] case Resource(i) => Leaf(i) case Child(c) => Sub(c)
  {
    seq(|items|, k requires 0 <= k < |items| => match items[k] case Resource(i) => Leaf(i) case Child(c) => Sub(c))
  }

  /** Every scope's registrations. */
  function Registrations(scopes: seq<Scope>): (lists: seq<seq<Node<nat>>>)
    ensures |lists| == |scopes| && forall t :: 0 <= t < |scopes| ==> lists[t] == NodesOf(scopes[t].registered)
  {
    seq(|scopes|, t requires 0 <= t < |scopes| => NodesOf(scopes[t].registered))
  }

  /** Every scope's disposals begun. */
  function Beginnings(scopes: seq<Scope>): (lists: seq<seq<Node<nat>>>)
    ensures |lists| == |scopes| && forall t :: 0 <= t < |scopes| ==> lists[t] == NodesOf(scopes[t].begun)
  {
    seq(|scopes|, t requires 0 <= t < |scopes| => NodesOf(scopes[t].begun))
  }

  /** A resource's disposal that has ended, and what it threw. */
  datatype Ended = Ended(id: nat, error: Option<Error>)

  /** A scope's disposals ended, and the place of the child it awaits. */
  function EndingsIn(s: Scope): (nodes: seq<Node<Ended>>)
    requires |s.ended| <= |s.begun|
    ensures |nodes| == |s.ended| + if AwaitsChild(s) then 1 else 0
    ensures forall k :: 0 <= k < |s.ended| ==>
              nodes[k] == match s.begun[k] case Resource(i) => Leaf(Ended(i, s.ended[k])) case Child(c) => Sub(c)
    ensures AwaitsChild(s) ==> nodes[|s.ended|] == Sub(s.current.value.scope)
  {
    seq(|s.ended|, k requires 0 <= k < |s.ended| =>
      match s.begun[k] case Resource(i) => Leaf(Ended(i, s.ended[k])) case Child(c) => Sub(c))
    + if AwaitsChild(s) then [Sub(s.current.value.scope)] else []
  }

  predicate AwaitsChild(s: Scope) {
    s.current.Some? && s.current.value.Child?
  }

  ghost predicate AllErrorsOk(scopes: seq<Scope>) {
    forall t :: 0 <= t < |scopes| ==> ErrorsOk(scopes[t])
  }

  /** Every scope's disposals ended. */
  ghost function Endings(scopes: seq<Scope>): (lists: seq<seq<Node<Ended>>>)
    requires AllErrorsOk(scopes)
    ensures |lists| == |scopes| && forall t :: 0 <= t < |scopes| ==> lists[t] == EndingsIn(scopes[t])
  {
    seq(|scopes|, t requires 0 <= t < |scopes| => EndingsIn(scopes[t]))
  }

  lemma {:induction false} RegistrationsParented(w: World)
    requires Inv(w)
    ensures Parented(w.scopes, Registrations(w.scopes))
  {
    var lists := Registrations(w.scopes);
    forall s, c: nat | 0 <= s < |lists| && Sub(c) in lists[s]
      ensures s < c < |w.scopes| && w.scopes[c].parent == Some(s)
    {
      var k :| 0 <= k < |lists[s]| && lists[s][k] == Sub(c);
      assert ScopeOk(w, s) && w.scopes[s].registered[k] == Child(c);
      assert ItemOk(w, s, Child(c));
    }
  }

  lemma {:induction false} BegunChild(w: World, s: nat, c: nat)
    requires Inv(w) && s < |w.scopes| && Child(c) in w.scopes[s].begun
    ensures s < c < |w.scopes| && w.scopes[c].parent == Some(s)
  {
    assert ScopeOk(w, s);
    BegunAreRegistered(w.scopes[s]);
    assert ItemOk(w, s, Child(c));
  }

  lemma {:induction false} BeginningsParented(w: World)
    requires Inv(w)
    ensures Parented(w.scopes, Beginnings(w.scopes))
  {
    var lists := Beginnings(w.scopes);
    forall s, c: nat | 0 <= s < |lists| && Sub(c) in lists[s]
      ensures s < c < |w.scopes| && w.scopes[c].parent == Some(s)
    {
      var k :| 0 <= k < |lists[s]| && lists[s][k] == Sub(c);
      assert w.scopes[s].begun[k] == Child(c);
      BegunChild(w, s, c);
    }
  }

  lemma {:induction false} EndingsParented(w: World)
    requires Inv(w) && AllErrorsOk(w.scopes)
    ensures Parented(w.scopes, Endings(w.scopes))
  {
    var lists := Endings(w.scopes);
    forall s, c: nat | 0 <= s < |lists| && Sub(c) in lists[s]
      ensures s < c < |w.scopes| && w.scopes[c].parent == Some(s)
    {
      assert ErrorsOk(w.scopes[s]) && ScopeOk(w, s);
      var k :| 0 <= k < |lists[s]| && lists[s][k] == Sub(c);
      assert k < |w.scopes[s].ended| ==> w.scopes[s].begun[k] == Child(c);
      assert Child(c) in w.scopes[s].begun;
      BegunChild(w, s, c);
    }
  }

  // ---- The chain of scopes at work ----

  /** From `root` down to `t`, each scope awaits the next. */
  ghost predicate Active(scopes: seq<Scope>, root: nat, t: nat)
    requires ParentsFirst(scopes) && t < |scopes|
    decreases t
  {
    t == root ||
    (&& scopes[t].parent.Some? && scopes[scopes[t].parent.value].current == Some(Child(t))
     && Active(scopes, root, scopes[t].parent.value))
  }

  /** Every released scope under `root` was released in its turn, by its parent's loop. */
  ghost predicate InOrder(w: World, root: nat)
    requires ParentsFirst(w.scopes)
  {
    forall t :: 0 <= t < |w.scopes| && t != root && IsUnder(w.scopes, t, root) && w.scopes[t].released ==>
      Child(t) in w.scopes[w.scopes[t].parent.value].begun
  }

  lemma {:induction false} AtWorkIsActive(w: World, root: nat, t: nat)
    requires Inv(w) && t < |w.scopes| && IsUnder(w.scopes, t, root) && InOrder(w, root)
    requires w.scopes[t].released && !Done(w.scopes[t])
    ensures Active(w.scopes, root, t)
    decreases t
  {
    if t != root {
      var p := w.scopes[t].parent.value;
      assert ScopeOk(w, p);
      AtWorkIsActive(w, root, p);
    }
  }

  lemma {:induction false} UnderIsLater(scopes: seq<Scope>, t: nat, s: nat)
    requires ParentsFirst(scopes) && t < |scopes| && IsUnder(scopes, t, s)
    ensures s <= t
    decreases t
  {
    if t != s {
      UnderIsLater(scopes, scopes[t].parent.value, s);
    }
  }

  /** No scope is under two children of one parent. */
  lemma {:induction false} SiblingsApart(scopes: seq<Scope>, t: nat, c: nat, d: nat)
    requires ParentsFirst(scopes) && t < |scopes| && c < |scopes| && d < |scopes|
    requires IsUnder(scopes, t, c) && IsUnder(scopes, t, d) && scopes[c].parent.Some? &&
             scopes[c].parent == scopes[d].parent
    ensures c == d
    decreases t
  {
    if t != c && t != d {
      SiblingsApart(scopes, scopes[t].parent.value, c, d);
    } else if t == c && t != d {
      UnderIsLater(scopes, scopes[c].parent.value, d);
    } else if t == d && t != c {
      UnderIsLater(scopes, scopes[d].parent.value, c);
    }
  }

  /** A child being awaited stands last in its parent's list, and nowhere else in it. */
  ghost predicate AwaitedLast<X>(scopes: seq<Scope>, lists: seq<seq<Node<X>>>) {
    && |lists| == |scopes|
    && forall s :: 0 <= s < |scopes| && AwaitsChild(scopes[s]) ==>
         && lists[s] != [] && lists[s][|lists[s]| - 1] == Sub(scopes[s].current.value.scope)
         && Sub(scopes[s].current.value.scope) !in lists[s][..|lists[s]| - 1]
  }

  ghost predicate OnlyAt<X>(lists: seq<seq<Node<X>>>, lists': seq<seq<Node<X>>>, t: nat) {
    |lists| <= |lists'| && forall u :: 0 <= u < |lists| && u != t ==> lists'[u] == lists[u]
  }

  /** What the awaited child's list gains at its end, its parent's does. */
  lemma {:induction false} LiftedToParent<X>(scopes: seq<Scope>, lists: seq<seq<Node<X>>>, lists': seq<seq<Node<X>>>,
                                             c: nat, t: nat, more: seq<X>)
    requires ParentsFirst(scopes) && Parented(scopes, lists) && AwaitedLast(scopes, lists) && OnlyAt(lists, lists', t)
    requires c < |scopes| && t < |scopes| && IsUnder(scopes, t, c)
    requires scopes[c].parent.Some? && scopes[scopes[c].parent.value].current == Some(Child(c))
    requires Flat(lists', c) == Flat(lists, c) + more
    ensures Flat(lists', scopes[c].parent.value) == Flat(lists, scopes[c].parent.value) + more
  {
    var p := scopes[c].parent.value;
    var n := |lists[p]| - 1;
    var others := lists[p][..n];
    UnderIsLater(scopes, t, c);
    forall d: nat | Sub(d) in others
      ensures AgreeUnder(scopes, lists, lists', d)
    {
      assert Sub(d) in lists[p];
      forall u | 0 <= u < |scopes| && IsUnder(scopes, u, d)
        ensures lists'[u] == lists[u]
      {
        if u == t {
          SiblingsApart(scopes, t, c, d);
        }
      }
    }
    FlatItemsFrame(scopes, lists, lists', p, others);
    assert AwaitsChild(scopes[p]) && lists[p][n] == Sub(c);
    assert lists'[p] == lists[p];
    assert FlatItem(lists', p, Sub(c)) == FlatItem(lists, p, Sub(c)) + more;
    assert Flat(lists', p) == FlatItems(lists', p, others) + FlatItem(lists', p, Sub(c));
    assert Flat(lists, p) == FlatItems(lists, p, others) + FlatItem(lists, p, Sub(c));
  }

  lemma {:induction false} LiftedToRoot<X>(scopes: seq<Scope>, lists: seq<seq<Node<X>>>, lists': seq<seq<Node<X>>>,
                                           root: nat,
                                           c: nat, t: nat, more: seq<X>)
    requires ParentsFirst(scopes) && Parented(scopes, lists) && AwaitedLast(scopes, lists) && OnlyAt(lists, lists', t)
    requires c < |scopes| && t < |scopes| && IsUnder(scopes, t, c) && Active(scopes, root, c) && root < |scopes|
    requires Flat(lists', c) == Flat(lists, c) + more
    ensures Flat(lists', root) == Flat(lists, root) + more
    decreases c
  {
    if c != root {
      LiftedToParent(scopes, lists, lists', c, t, more);
      UnderParent(scopes, t, c, scopes[c].parent.value);
      LiftedToRoot(scopes, lists, lists', root, scopes[c].parent.value, t, more);
    }
  }

  /** An item added to the list of the scope at work is added at the end of the whole. */
  lemma {:induction false} AddedAtTheEnd<X>(scopes: seq<Scope>, lists: seq<seq<Node<X>>>, lists': seq<seq<Node<X>>>,
                                            root: nat, t: nat, item: Node<X>)
    requires ParentsFirst(scopes) && Parented(scopes, lists) && AwaitedLast(scopes, lists) && OnlyAt(lists, lists', t)
    requires t < |scopes| && Active(scopes, root, t) && root < |scopes| && lists'[t] == lists[t] + [item]
    ensures Flat(lists', root) == Flat(lists, root) + FlatItem(lists', t, item)
  {
    forall c: nat | Sub(c) in lists[t]
      ensures AgreeUnder(scopes, lists, lists', c)
    {
      forall u | 0 <= u < |scopes| && IsUnder(scopes, u, c)
        ensures lists'[u] == lists[u]
      {
        UnderIsLater(scopes, u, c);
      }
    }
    FlatItemsFrame(scopes, lists, lists', t, lists[t]);
    FlatItemsOfBoth(lists', t, lists[t], [item]);
    FlatItemsOfOne(lists', t, item);
    LiftedToRoot(scopes, lists, lists', root, t, t, FlatItem(lists', t, item));
  }

  // ---- What a step disposes ----

  /** The resource whose disposer step `e` starts, if it starts one. */
  ghost function Disposes(w: World, e: Event): Option<nat>
    requires Inv(w) && Enabled(w, e)
  {
    match e
    case DisposeNext(s) => if w.scopes[s].pending[0].Resource? then Some(w.scopes[s].pending[0].id) else None
    case Fulfil(i) =>
      assert AcquiredOk(w, i);
      if !w.acquisitions[i].kept && IsCancelled(w.scopes[w.acquisitions[i].scope]) then Some(i) else None
    case Resume(i) =>
      assert AcquiredOk(w, i);
      if w.acquisitions[i].step.Passed? && IsCancelled(w.scopes[w.acquisitions[i].scope]) then Some(i) else None
    case Register(s) => if IsCancelled(w.scopes[s]) then Some(|w.acquisitions|) else None
    case _ => None
  }

  /** It is exactly the acquisition whose count of disposals the step raises. */
  lemma {:induction false} DisposesIsCounted(w: World, e: Event, i: nat)
    requires Inv(w) && Enabled(w, e) && i < |Apply(w, e).acquisitions|
    ensures Apply(w, e).acquisitions[i].disposals ==
            (if i < |w.acquisitions| then w.acquisitions[i].disposals else 0) +
                (if Disposes(w, e) == Some(i) then 1 else 0)
  {
    if e.DisposeNext? {
      NextIsRegistered(w, e.scope);
    }
    if e.Resume? {
      assert AcquiredOk(w, e.acquisition);
    }
  }

  /** The scope the disposed resource was acquired in. */
  ghost function ScopeOf(w: World, e: Event): nat
    requires Inv(w) && Enabled(w, e)
  {
    match e
    case DisposeNext(s) => s
    case Register(s) => s
    case Fulfil(i) => w.acquisitions[i].scope
    case Resume(i) => w.acquisitions[i].scope
    case _ => 0
  }

  /** What a step disposes of the tree under `root`. */
  ghost function DisposedUnder(w: World, e: Event, root: nat): seq<nat>
    requires Inv(w) && Enabled(w, e)
  {
    if Disposes(w, e).Some? && ScopeOf(w, e) < |w.scopes| && IsUnder(w.scopes, ScopeOf(w, e), root)
    then [Disposes(w, e).value] else []
  }

  /** A disposal under `root` that no release's loop runs: of a resource that arrived after its scope was cancelled. */
  ghost predicate ArrivesLate(w: World, e: Event, root: nat)
    requires Inv(w) && Enabled(w, e)
  {
    !e.DisposeNext? && DisposedUnder(w, e, root) != []
  }

  /** The disposals a step ends under `root`. */
  ghost function EndedUnder(w: World, e: Event, root: nat): seq<Ended>
    requires Inv(w) && Enabled(w, e)
  {
    if e.Disposed? && IsUnder(w.scopes, e.scope, root) then [Ended(w.scopes[e.scope].current.value.id, e.error)] else []
  }

  /** A scope under `root` released by a call of its own, and not in its parent's turn. */
  ghost predicate ClosesEarly(w: World, e: Event, root: nat)
    requires Inv(w) && Enabled(w, e)
  {
    e.StartRelease? && e.scope != root && IsUnder(w.scopes, e.scope, root) && !w.scopes[e.scope].released
  }

  // ---- Runs ----

  ghost function Disposals(w: World, events: seq<Event>, w': World, root: nat): seq<nat>
    requires Inv(w) && Run(w, events, w')
    decreases |events|
  {
    if events == [] then []
    else
      StepKeepsInv(w, events[0]);
      DisposedUnder(w, events[0], root) + Disposals(Apply(w, events[0]), events[1..], w', root)
  }

  ghost function DisposalsEnded(w: World, events: seq<Event>, w': World, root: nat): seq<Ended>
    requires Inv(w) && Run(w, events, w')
    decreases |events|
  {
    if events == [] then []
    else
      StepKeepsInv(w, events[0]);
      EndedUnder(w, events[0], root) + DisposalsEnded(Apply(w, events[0]), events[1..], w', root)
  }

  /**
   * In the run no scope under `root` closes early and no resource arrives late; any other step may come at any time.
   */
  ghost predicate Undisturbed(w: World, events: seq<Event>, w': World, root: nat)
    requires Inv(w) && Run(w, events, w')
    decreases |events|
  {
    events == [] ||
    (StepKeepsInv(w, events[0]);
     && !ClosesEarly(w, events[0], root) && !ArrivesLate(w, events[0], root)
     && Undisturbed(Apply(w, events[0]), events[1..], w', root))
  }

  /** A scope is newly released by a call of its own, or by its parent's loop. */
  lemma {:induction false} NewlyReleased(w: World, e: Event, t: nat)
    requires Inv(w) && Enabled(w, e) && t < |w.scopes| && !w.scopes[t].released
    requires t < |Apply(w, e).scopes| && Apply(w, e).scopes[t].released
    ensures e == StartRelease(t) ||
            (&& e.DisposeNext? && w.scopes[e.scope].pending[0] == Child(t) && w.scopes[t].parent == Some(e.scope))
  {
    BegunOnlyGrows(w, e, t);
    if e.DisposeNext? {
      NextIsRegistered(w, e.scope);
    }
  }

  lemma {:induction false} StepKeepsOrder(w: World, e: Event, root: nat)
    requires Inv(w) && Enabled(w, e) && InOrder(w, root) && !ClosesEarly(w, e, root) && root < |w.scopes|
    ensures Inv(Apply(w, e)) && InOrder(Apply(w, e), root)
  {
    var w' := Apply(w, e);
    StepKeepsInv(w, e);
    StepKeepsParents(w, e);
    forall t | 0 <= t < |w'.scopes| && t != root && IsUnder(w'.scopes, t, root) && w'.scopes[t].released
      ensures Child(t) in w'.scopes[w'.scopes[t].parent.value].begun
    {
      assert t < |w.scopes|;
      SameParentsSameUnder(w.scopes, w'.scopes, t, root);
      BegunOnlyGrows(w, e, w.scopes[t].parent.value);
      if !w.scopes[t].released {
        NewlyReleased(w, e, t);
      }
    }
  }

  lemma {:induction false} BegunOnlyGrows(w: World, e: Event, s: nat)
    requires Inv(w) && Enabled(w, e) && s < |w.scopes|
    ensures s < |Apply(w, e).scopes|
    ensures Apply(w, e).scopes[s].begun ==
            w.scopes[s].begun + (if e.DisposeNext? && e.scope == s then [w.scopes[s].pending[0]] else [])
    ensures !(e.Disposed? || e.ChildDisposed?) || e.scope != s ==> Apply(w, e).scopes[s].ended == w.scopes[s].ended
    ensures !LoopEvent(e) || e.scope != s ==> Apply(w, e).scopes[s].current == w.scopes[s].current
    ensures !e.StartRelease? && !e.DisposeNext? ==> Apply(w, e).scopes[s].released == w.scopes[s].released
  {
    if e.DisposeNext? {
      NextIsRegistered(w, e.scope);
    }
    if e.Resume? {
      assert AcquiredOk(w, e.acquisition);
    }
  }

  lemma {:induction false} BegunAreDistinct(w: World, s: nat)
    requires Inv(w) && s < |w.scopes|
    ensures Distinct(w.scopes[s].begun)
    ensures w.scopes[s].pending != [] ==> w.scopes[s].pending[0] !in w.scopes[s].begun
  {
    assert ScopeOk(w, s);
    BegunAreRegistered(w.scopes[s]);
    var begun, pending := w.scopes[s].begun, w.scopes[s].pending;
    assert forall k :: 0 <= k < |begun| ==> (begun + pending)[k] == begun[k];
    if pending != [] {
      assert (begun + pending)[|begun|] == pending[0];
    }
  }

  lemma {:induction false} BegunAwaitedLast(w: World)
    requires Inv(w)
    ensures AwaitedLast(w.scopes, Beginnings(w.scopes))
  {
    var lists := Beginnings(w.scopes);
    forall s | 0 <= s < |w.scopes| && AwaitsChild(w.scopes[s])
      ensures lists[s] != [] && lists[s][|lists[s]| - 1] == Sub(w.scopes[s].current.value.scope)
      ensures Sub(w.scopes[s].current.value.scope) !in lists[s][..|lists[s]| - 1]
    {
      assert ScopeOk(w, s);
      BegunAreDistinct(w, s);
      var begun := w.scopes[s].begun;
      assert begun[|begun| - 1] == Child(w.scopes[s].current.value.scope);
      assert forall k :: 0 <= k < |begun| - 1 ==> begun[k] != begun[|begun| - 1];
    }
  }

  /** The scope whose loop runs under `root` is the one at work. */
  lemma {:induction false} LoopIsActive(w: World, e: Event, root: nat)
    requires Inv(w) && Enabled(w, e) && InOrder(w, root) && LoopEvent(e) && IsUnder(w.scopes, e.scope, root)
    ensures Active(w.scopes, root, e.scope)
  {
    assert ScopeOk(w, e.scope);
    AtWorkIsActive(w, root, e.scope);
  }

  /** A child reached in its turn has begun nothing yet. */
  lemma {:induction false} NextChildIsFresh(w: World, s: nat, root: nat)
    requires Inv(w) && Enabled(w, DisposeNext(s)) && InOrder(w, root) && root < |w.scopes| && IsUnder(w.scopes, s, root)
    requires w.scopes[s].pending[0].Child?
    ensures var c := w.scopes[s].pending[0].scope;
            s < c < |w.scopes| && w.scopes[c].begun == [] && w.scopes[c].current.None?
  {
    NextIsRegistered(w, s);
    BegunAreDistinct(w, s);
    var c := w.scopes[s].pending[0].scope;
    UnderIsLater(w.scopes, s, root);
    UnderParent(w.scopes, c, c, s);
    UnderOfUnder(w.scopes, c, s, root);
    assert ScopeOk(w, c);
  }

  lemma {:induction false} UnderOfUnder(scopes: seq<Scope>, t: nat, s: nat, root: nat)
    requires ParentsFirst(scopes) && t < |scopes| && s < |scopes| && IsUnder(scopes, t, s) && IsUnder(scopes, s, root)
    ensures IsUnder(scopes, t, root)
    decreases t
  {
    if t != s {
      UnderOfUnder(scopes, scopes[t].parent.value, s, root);
    }
  }

  /** A step adds what it disposes under `root` at the end of what has been begun there. */
  lemma {:induction false} StepExtendsBeginnings(w: World, e: Event, root: nat)
    requires Inv(w) && Enabled(w, e) && InOrder(w, root) && root < |w.scopes|
    requires !ClosesEarly(w, e, root) && !ArrivesLate(w, e, root)
    ensures root < |Apply(w, e).scopes|
    ensures Flat(Beginnings(Apply(w, e).scopes), root) == Flat(Beginnings(w.scopes), root) + DisposedUnder(w, e, root)
  {
    var lists, lists' := Beginnings(w.scopes), Beginnings(Apply(w, e).scopes);
    StepKeepsParents(w, e);
    BeginningsParented(w);
    forall s | 0 <= s < |w.scopes|
      ensures lists'[s] == lists[s] + if e.DisposeNext? && e.scope == s then NodesOf([w.scopes[s].pending[0]]) else []
    {
      BegunOnlyGrows(w, e, s);
    }
    if e.DisposeNext? && IsUnder(w.scopes, e.scope, root) {
      NextExtendsBeginnings(w, e.scope, root, lists');
    } else {
      assert DisposedUnder(w, e, root) == [];
      FlatFrame(w.scopes, lists, lists', root);
    }
  }

  lemma {:induction false} NextExtendsBeginnings(w: World, s: nat, root: nat, lists': seq<seq<Node<nat>>>)
    requires Inv(w) && Enabled(w, DisposeNext(s)) && InOrder(w, root) && root < |w.scopes| && IsUnder(w.scopes, s, root)
    requires |lists'| >= |w.scopes|
    requires forall t :: 0 <= t < |w.scopes| ==>
               lists'[t] == Beginnings(w.scopes)[t] + if t == s then NodesOf([w.scopes[s].pending[0]]) else []
    ensures Flat(lists', root) == Flat(Beginnings(w.scopes), root) + DisposedUnder(w, DisposeNext(s), root)
  {
    var lists := Beginnings(w.scopes);
    var next := w.scopes[s].pending[0];
    BeginningsParented(w);
    BegunAwaitedLast(w);
    LoopIsActive(w, DisposeNext(s), root);
    var item := NodesOf([next])[0];
    assert NodesOf([next]) == [item];
    AddedAtTheEnd(w.scopes, lists, lists', root, s, item);
    if next.Child? {
      NextChildIsFresh(w, s, root);
      assert lists'[next.scope] == [];
      assert Flat(lists', next.scope) == [];
      assert item == Sub(next.scope) && FlatItem(lists', s, item) == [];
      assert DisposedUnder(w, DisposeNext(s), root) == [];
    } else {
      assert item == Leaf(next.id) && DisposedUnder(w, DisposeNext(s), root) == [next.id];
    }
  }

  // ---- What a step ends ----

  ghost function EndingAt(w: World, e: Event, s: nat): seq<Node<Ended>>
    requires Inv(w) && Enabled(w, e) && s < |w.scopes|
  {
    if e.Disposed? && e.scope == s then [Leaf(Ended(w.scopes[s].current.value.id, e.error))]
    else if e.DisposeNext? && e.scope == s && w.scopes[s].pending[0].Child? then [Sub(w.scopes[s].pending[0].scope)]
    else []
  }

  lemma {:induction false} EndingsAfter(w: World, e: Event, s: nat)
    requires Inv(w) && Enabled(w, e) && s < |w.scopes| && ErrorsOk(w.scopes[s])
    ensures s < |Apply(w, e).scopes| && ErrorsOk(Apply(w, e).scopes[s])
    ensures EndingsIn(Apply(w, e).scopes[s]) == EndingsIn(w.scopes[s]) + EndingAt(w, e, s)
  {
    assert ScopeOk(w, s);
    StepKeepsParents(w, e);
    StepKeepsErrors(w, e, s);
    BegunOnlyGrows(w, e, s);
    if LoopEvent(e) && e.scope == s {
      LoopEndings(w, e);
    }
  }

  lemma {:induction false} LoopEndings(w: World, e: Event)
    requires Inv(w) && Enabled(w, e) && LoopEvent(e) && ErrorsOk(w.scopes[e.scope])
    requires e.scope < |Apply(w, e).scopes| && ErrorsOk(Apply(w, e).scopes[e.scope])
    ensures EndingsIn(Apply(w, e).scopes[e.scope]) == EndingsIn(w.scopes[e.scope]) + EndingAt(w, e, e.scope)
  {
    assert ScopeOk(w, e.scope);
    if e.DisposeNext? {
      NextIsRegistered(w, e.scope);
    }
  }

  lemma {:induction false} EndedAwaitedLast(w: World)
    requires Inv(w) && AllErrorsOk(w.scopes)
    ensures AwaitedLast(w.scopes, Endings(w.scopes))
  {
    var lists := Endings(w.scopes);
    forall s | 0 <= s < |w.scopes| && AwaitsChild(w.scopes[s])
      ensures lists[s] != [] && lists[s][|lists[s]| - 1] == Sub(w.scopes[s].current.value.scope)
      ensures Sub(w.scopes[s].current.value.scope) !in lists[s][..|lists[s]| - 1]
    {
      assert ScopeOk(w, s) && ErrorsOk(w.scopes[s]);
      BegunAreDistinct(w, s);
      var begun := w.scopes[s].begun;
      assert begun[|begun| - 1] == Child(w.scopes[s].current.value.scope);
      assert forall k :: 0 <= k < |begun| - 1 ==> begun[k] != begun[|begun| - 1];
    }
  }

  lemma StepKeepsAllErrors(w: World, e: Event)
    requires Inv(w) && Enabled(w, e) && AllErrorsOk(w.scopes)
    ensures AllErrorsOk(Apply(w, e).scopes)
  {
    forall s | 0 <= s < |Apply(w, e).scopes|
      ensures ErrorsOk(Apply(w, e).scopes[s])
    {
      StepKeepsErrors(w, e, s);
    }
  }

  /** A step adds the disposal it ends under `root` at the end of those ended there. */
  lemma {:induction false} StepExtendsEndings(w: World, e: Event, root: nat)
    requires Inv(w) && Enabled(w, e) && InOrder(w, root) && root < |w.scopes| && AllErrorsOk(w.scopes)
    requires !ClosesEarly(w, e, root)
    ensures root < |Apply(w, e).scopes| && AllErrorsOk(Apply(w, e).scopes)
    ensures Flat(Endings(Apply(w, e).scopes), root) == Flat(Endings(w.scopes), root) + EndedUnder(w, e, root)
  {
    var w' := Apply(w, e);
    StepKeepsParents(w, e);
    StepKeepsAllErrors(w, e);
    var lists, lists' := Endings(w.scopes), Endings(w'.scopes);
    EndingsParented(w);
    forall s | 0 <= s < |w.scopes|
      ensures lists'[s] == lists[s] + EndingAt(w, e, s)
    {
      EndingsAfter(w, e, s);
    }
    if LoopEvent(e) && IsUnder(w.scopes, e.scope, root) {
      LoopExtendsEndings(w, e, root, lists');
    } else {
      FlatFrame(w.scopes, lists, lists', root);
    }
  }

  lemma {:induction false} LoopExtendsEndings(w: World, e: Event, root: nat, lists': seq<seq<Node<Ended>>>)
    requires Inv(w) && Enabled(w, e) && InOrder(w, root) && root < |w.scopes| && AllErrorsOk(w.scopes)
    requires LoopEvent(e) && IsUnder(w.scopes, e.scope, root) && |lists'| >= |w.scopes|
    requires forall s :: 0 <= s < |w.scopes| ==> lists'[s] == Endings(w.scopes)[s] + EndingAt(w, e, s)
    ensures Flat(lists', root) == Flat(Endings(w.scopes), root) + EndedUnder(w, e, root)
  {
    var lists, s := Endings(w.scopes), e.scope;
    EndingsParented(w);
    EndedAwaitedLast(w);
    LoopIsActive(w, e, root);
    if EndingAt(w, e, s) == [] {
      FlatFrame(w.scopes, lists, lists', root);
    } else {
      var item := EndingAt(w, e, s)[0];
      AddedAtTheEnd(w.scopes, lists, lists', root, s, item);
      if e.DisposeNext? {
        var c := w.scopes[s].pending[0].scope;
        NextChildIsFresh(w, s, root);
        assert ErrorsOk(w.scopes[c]);
        assert lists'[c] == [];
        assert Flat(lists', c) == [];
        assert FlatItem(lists', s, item) == [];
      } else {
        assert FlatItem(lists', s, item) == EndedUnder(w, e, root);
      }
    }
  }

  // ---- The error a release rethrows ----

  /** What a scope recorded of a child's disposal is the error the child's release rethrew. */
  ghost predicate LinksOk(w: World, s: nat)
    requires s < |w.scopes|
  {
    forall k :: 0 <= k < |w.scopes[s].ended| && k < |w.scopes[s].begun| && w.scopes[s].begun[k].Child? ==>
      w.scopes[s].begun[k].scope < |w.scopes| && w.scopes[s].ended[k] == w.scopes[w.scopes[s].begun[k].scope].first
  }

  ghost predicate AllLinksOk(w: World) {
    forall s :: 0 <= s < |w.scopes| ==> LinksOk(w, s)
  }

  /** A finished release's error stands. */
  lemma {:induction false} FirstStands(w: World, e: Event, c: nat)
    requires Inv(w) && Enabled(w, e) && c < |w.scopes|
    requires (e.Disposed? || e.ChildDisposed?) && e.scope == c ==> !Done(w.scopes[c])
    ensures c < |Apply(w, e).scopes|
    ensures ((e.Disposed? || e.ChildDisposed?) && e.scope == c) || Apply(w, e).scopes[c].first == w.scopes[c].first
  {
    if e.DisposeNext? {
      NextIsRegistered(w, e.scope);
    }
    if e.Resume? {
      assert AcquiredOk(w, e.acquisition);
    }
  }

  lemma {:induction false} StepKeepsLinks(w: World, e: Event, s: nat)
    requires Inv(w) && Enabled(w, e) && AllErrorsOk(w.scopes) && s < |w.scopes| && LinksOk(w, s)
    ensures s < |Apply(w, e).scopes| && LinksOk(Apply(w, e), s)
  {
    var w' := Apply(w, e);
    var scope := w.scopes[s];
    StepKeepsParents(w, e);
    BegunOnlyGrows(w, e, s);
    EndedOnlyGrows(w, e, s);
    assert ScopeOk(w, s) && ErrorsOk(scope);
    BegunAreDistinct(w, s);
    forall k | 0 <= k < |w'.scopes[s].ended| && k < |w'.scopes[s].begun| && w'.scopes[s].begun[k].Child?
      ensures w'.scopes[s].begun[k].scope < |w'.scopes|
      ensures w'.scopes[s].ended[k] == w'.scopes[w'.scopes[s].begun[k].scope].first
    {
      var c := scope.begun[k].scope;
      assert scope.begun[k] in scope.begun;
      BegunChild(w, s, c);
      FirstStands(w, e, c);
      if k < |scope.ended| {
        assert scope.current != Some(Child(c));
        assert Done(w.scopes[c]);
      }
    }
  }

  lemma {:induction false} EndedOnlyGrows(w: World, e: Event, s: nat)
    requires Inv(w) && Enabled(w, e) && s < |w.scopes|
    ensures s < |Apply(w, e).scopes|
    ensures Apply(w, e).scopes[s].ended ==
            w.scopes[s].ended +
            (if e.Disposed? && e.scope == s then [e.error]
             else if e.ChildDisposed? && e.scope == s then [w.scopes[w.scopes[s].current.value.scope].first] else [])
  {
    BegunOnlyGrows(w, e, s);
  }

  function FirstIn(errors: seq<Option<Error>>): Option<Error> {
    if errors == [] then None else if errors[0].Some? then errors[0] else FirstIn(errors[1..])
  }

  lemma {:induction false} FirstInIsFirst(first: Option<Error>, errors: seq<Option<Error>>)
    ensures IsFirst(first, errors) <==> first == FirstIn(errors)
  {
    if errors != [] {
      FirstInIsFirst(first, errors[1..]);
      assert forall k :: 1 <= k < |errors| ==> errors[k] == errors[1..][k - 1];
      if errors[0].None? && first.Some? {
        if IsFirst(first, errors[1..]) {
          var k :| 0 <= k < |errors[1..]| && errors[1..][k] == first && forall j :: 0 <= j < k ==> errors[1..][j].None?;
          assert errors[k + 1] == first;
        }
        if IsFirst(first, errors) {
          var k :| 0 <= k < |errors| && errors[k] == first && forall j :: 0 <= j < k ==> errors[j].None?;
          assert errors[1..][k - 1] == first;
        }
      }
    }
  }

  lemma {:induction false} FirstInBoth(a: seq<Option<Error>>, b: seq<Option<Error>>)
    ensures FirstIn(a + b) == if FirstIn(a).Some? then FirstIn(a) else FirstIn(b)
  {
    if a == [] {
      assert a + b == b;
    } else {
      assert (a + b)[1..] == a[1..] + b;
      FirstInBoth(a[1..], b);
    }
  }

  function ErrorsOf(ended: seq<Ended>): (errors: seq<Option<Error>>)
    ensures |errors| == |ended| && forall k :: 0 <= k < |ended| ==> errors[k] == ended[k].error
  {
    seq(|ended|, k requires 0 <= k < |ended| => ended[k].error)
  }

  function IdsOf(ended: seq<Ended>): (ids: seq<nat>)
    ensures |ids| == |ended| && forall k :: 0 <= k < |ended| ==> ids[k] == ended[k].id
  {
    seq(|ended|, k requires 0 <= k < |ended| => ended[k].id)
  }

  /** A finished release's error is the first of those its disposals threw, the whole tree over. */
  lemma {:induction false} FirstOfTree(w: World, s: nat)
    requires Inv(w) && AllErrorsOk(w.scopes) && AllLinksOk(w) && s < |w.scopes| && Done(w.scopes[s])
    ensures w.scopes[s].first == FirstIn(ErrorsOf(Flat(Endings(w.scopes), s)))
    decreases |w.scopes| - s, |w.scopes[s].ended| + 1
  {
    var ended := w.scopes[s].ended;
    assert ErrorsOk(w.scopes[s]);
    FirstInIsFirst(w.scopes[s].first, ended);
    FirstOfItems(w, s, |ended|);
    assert ended[..|ended|] == ended && Endings(w.scopes)[s][..|ended|] == Endings(w.scopes)[s];
  }

  lemma {:induction false} FirstOfItems(w: World, s: nat, k: nat)
    requires Inv(w) && AllErrorsOk(w.scopes) && AllLinksOk(w) && s < |w.scopes| && Done(w.scopes[s])
    requires k <= |w.scopes[s].ended|
    ensures FirstIn(w.scopes[s].ended[..k]) ==
            FirstIn(ErrorsOf(FlatItems(Endings(w.scopes), s, Endings(w.scopes)[s][..k])))
    decreases |w.scopes| - s, k
  {
    if k > 0 {
      var lists, ended := Endings(w.scopes), w.scopes[s].ended;
      FirstOfItems(w, s, k - 1);
      FirstOfItem(w, s, k - 1);
      assert lists[s][..k][..k - 1] == lists[s][..k - 1] && ended[..k] == ended[..k - 1] + [ended[k - 1]];
      FirstOfOneMore(FlatItems(lists, s, lists[s][..k - 1]), FlatItem(lists, s, lists[s][k - 1]), ended[..k - 1],
                     ended[k - 1]);
    }
  }

  lemma {:induction false} FirstOfOneMore(before: seq<Ended>, last: seq<Ended>, errors: seq<Option<Error>>,
                                          error: Option<Error>)
    requires FirstIn(errors) == FirstIn(ErrorsOf(before)) && FirstIn([error]) == FirstIn(ErrorsOf(last))
    ensures FirstIn(errors + [error]) == FirstIn(ErrorsOf(before + last))
  {
    FirstAmongBoth(before, last);
    FirstInBoth(errors, [error]);
  }

  lemma {:induction false} FirstOfItem(w: World, s: nat, k: nat)
    requires Inv(w) && AllErrorsOk(w.scopes) && AllLinksOk(w) && s < |w.scopes| && Done(w.scopes[s])
    requires k < |w.scopes[s].ended|
    ensures FirstIn(ErrorsOf(FlatItem(Endings(w.scopes), s, Endings(w.scopes)[s][k]))) == w.scopes[s].ended[k]
    ensures FirstIn([w.scopes[s].ended[k]]) == w.scopes[s].ended[k]
    decreases |w.scopes| - s, k
  {
    var lists, scope := Endings(w.scopes), w.scopes[s];
    assert ErrorsOk(scope) && LinksOk(w, s) && ScopeOk(w, s);
    var error := scope.ended[k];
    assert [error][1..] == [];
    match scope.begun[k]
    case Resource(i) =>
      assert ErrorsOf([Ended(i, error)]) == [error];
    case Child(c) =>
      assert scope.begun[k] in scope.begun;
      BegunChild(w, s, c);
      FirstOfTree(w, c);
  }

  /** Once a release is done, what has ended in it is what was begun. */
  lemma {:induction false} EndedIsBegun(w: World, s: nat)
    requires Inv(w) && AllErrorsOk(w.scopes) && s < |w.scopes| && Done(w.scopes[s])
    ensures IdsOf(Flat(Endings(w.scopes), s)) == Flat(Beginnings(w.scopes), s)
    decreases |w.scopes| - s, |w.scopes[s].begun| + 1, 0
  {
    var n := |w.scopes[s].begun|;
    assert ErrorsOk(w.scopes[s]);
    EndedItemsBegun(w, s, n);
    assert Endings(w.scopes)[s][..n] == Endings(w.scopes)[s] && Beginnings(w.scopes)[s][..n] == Beginnings(w.scopes)[s];
  }

  /** Once a release is done, each item's disposals ended are those begun. */
  lemma {:induction false} EndedItemBegun(w: World, s: nat, k: nat)
    requires Inv(w) && AllErrorsOk(w.scopes) && s < |w.scopes| && Done(w.scopes[s]) && k < |w.scopes[s].begun|
    requires |Endings(w.scopes)[s]| == |w.scopes[s].begun|
    ensures IdsOf(FlatItem(Endings(w.scopes), s, Endings(w.scopes)[s][k])) ==
            FlatItem(Beginnings(w.scopes), s, Beginnings(w.scopes)[s][k])
    decreases |w.scopes| - s, k, 0
  {
    var scope := w.scopes[s];
    assert ErrorsOk(scope) && ScopeOk(w, s);
    match scope.begun[k]
    case Resource(i) =>
      assert IdsOf([Ended(i, scope.ended[k])]) == [i];
    case Child(c) =>
      assert scope.begun[k] in scope.begun;
      BegunChild(w, s, c);
      EndedIsBegun(w, c);
  }

  lemma {:induction false} EndedItemsBegun(w: World, s: nat, k: nat)
    requires Inv(w) && AllErrorsOk(w.scopes) && s < |w.scopes| && Done(w.scopes[s]) && k <= |w.scopes[s].begun|
    requires |Endings(w.scopes)[s]| == |w.scopes[s].begun|
    ensures IdsOf(FlatItems(Endings(w.scopes), s, Endings(w.scopes)[s][..k])) ==
            FlatItems(Beginnings(w.scopes), s, Beginnings(w.scopes)[s][..k])
    decreases |w.scopes| - s, k, 1
  {
    if k > 0 {
      var ends, begins := Endings(w.scopes), Beginnings(w.scopes);
      EndedItemsBegun(w, s, k - 1);
      EndedItemBegun(w, s, k - 1);
      FlatOneMore(ends, s, k - 1);
      FlatOneMore(begins, s, k - 1);
      IdsOfBoth(FlatItems(ends, s, ends[s][..k - 1]), FlatItem(ends, s, ends[s][k - 1]));
    }
  }

  lemma {:induction false} FlatOneMore<X>(lists: seq<seq<Node<X>>>, s: nat, k: nat)
    requires s < |lists| && k < |lists[s]|
    ensures FlatItems(lists, s, lists[s][..k + 1]) ==
            FlatItems(lists, s, lists[s][..k]) + FlatItem(lists, s, lists[s][k])
  {
    assert lists[s][..k + 1][..k] == lists[s][..k];
  }

  lemma {:induction false} IdsOfBoth(a: seq<Ended>, b: seq<Ended>)
    ensures IdsOf(a + b) == IdsOf(a) + IdsOf(b)
  {
  }

  // ---- The order of a nested release ----

  /** No scope of the tree under `root` has been released. */
  ghost predicate NoneReleased(w: World, root: nat)
    requires ParentsFirst(w.scopes)
  {
    forall t :: 0 <= t < |w.scopes| && IsUnder(w.scopes, t, root) ==> !w.scopes[t].released
  }

  /** What a run keeps of the tree under `root`, where no scope of it closes early. */
  ghost predicate Ready(w: World, root: nat) {
    Inv(w) && root < |w.scopes| && InOrder(w, root) && AllErrorsOk(w.scopes) && AllLinksOk(w)
  }

  lemma {:induction false} StepExtends(w: World, e: Event, root: nat)
    requires Ready(w, root) && Enabled(w, e) && !ClosesEarly(w, e, root) && !ArrivesLate(w, e, root)
    ensures Ready(Apply(w, e), root)
    ensures Flat(Beginnings(Apply(w, e).scopes), root) == Flat(Beginnings(w.scopes), root) + DisposedUnder(w, e, root)
    ensures Flat(Endings(Apply(w, e).scopes), root) == Flat(Endings(w.scopes), root) + EndedUnder(w, e, root)
  {
    StepKeepsOrder(w, e, root);
    StepExtendsBeginnings(w, e, root);
    StepExtendsEndings(w, e, root);
    StepKeepsAllLinks(w, e);
  }

  lemma {:induction false} RunExtends(w: World, events: seq<Event>, w': World, root: nat)
    requires Ready(w, root) && Run(w, events, w') && Undisturbed(w, events, w', root)
    ensures Ready(w', root)
    ensures Flat(Beginnings(w'.scopes), root) == Flat(Beginnings(w.scopes), root) + Disposals(w, events, w', root)
    ensures Flat(Endings(w'.scopes), root) == Flat(Endings(w.scopes), root) + DisposalsEnded(w, events, w', root)
    decreases |events|
  {
    if events != [] {
      var e, next := events[0], Apply(w, events[0]);
      StepExtends(w, e, root);
      RunExtends(next, events[1..], w', root);
      Associates(Flat(Beginnings(w.scopes), root), DisposedUnder(w, e, root), Disposals(next, events[1..], w', root));
      Associates(Flat(Endings(w.scopes), root), EndedUnder(w, e, root), DisposalsEnded(next, events[1..], w', root));
    }
  }

  lemma Associates<T>(a: seq<T>, b: seq<T>, c: seq<T>)
    ensures a + b + c == a + (b + c)
  {
  }

  lemma {:induction false} StepKeepsAllLinks(w: World, e: Event)
    requires Inv(w) && Enabled(w, e) && AllErrorsOk(w.scopes) && AllLinksOk(w)
    ensures AllLinksOk(Apply(w, e))
  {
    var w' := Apply(w, e);
    StepKeepsParents(w, e);
    forall s | 0 <= s < |w'.scopes|
      ensures LinksOk(w', s)
    {
      if s < |w.scopes| {
        StepKeepsLinks(w, e, s);
      }
    }
  }

  lemma {:induction false} RunKeepsLinks(w: World, events: seq<Event>, w': World)
    requires Inv(w) && Run(w, events, w') && AllErrorsOk(w.scopes) && AllLinksOk(w)
    ensures AllErrorsOk(w'.scopes) && AllLinksOk(w')
    decreases |events|
  {
    if events != [] {
      var next := Apply(w, events[0]);
      StepKeepsInv(w, events[0]);
      StepKeepsAllLinks(w, events[0]);
      StepKeepsAllErrors(w, events[0]);
      RunKeepsLinks(next, events[1..], w');
    }
  }

  /**
   * A tree of scopes, none of them released yet; then a run, of any length and
   * with any other steps in between, in which nothing arrives late under
   * `root` and no scope under it closes early. Once the root's release is
   * done, what the run disposed under it is exactly the reverse of the
   * flattened registration order; every one of those disposals has ended,
   * errors or not, in that order, and the error the root rethrows is the
   * first of theirs.
   */
  lemma {:induction false} TreeDisposedInReverse(before: seq<Event>, w: World, events: seq<Event>, w': World, root: nat)
    requires Run(EMPTY, before, w) && Inv(w) && root < |w.scopes| && NoneReleased(w, root)
    requires Run(w, events, w') && Undisturbed(w, events, w', root)
    requires root < |w'.scopes| && Done(w'.scopes[root])
    ensures var order := Reverse(Flat(Registrations(w'.scopes), root));
            Disposals(w, events, w', root) == order && IdsOf(DisposalsEnded(w, events, w', root)) == order
    ensures IsFirst(w'.scopes[root].first, ErrorsOf(DisposalsEnded(w, events, w', root)))
  {
    RunKeepsLinks(EMPTY, before, w);
    RunDisposes(w, events, w', root);
    DoneInReverse(w', root, Disposals(w, events, w', root), DisposalsEnded(w, events, w', root));
  }

  /** Where nothing was begun, what a run disposes and ends is what its last state has begun and ended. */
  lemma {:induction false} RunDisposes(w: World, events: seq<Event>, w': World, root: nat)
    requires Inv(w) && Run(w, events, w') && root < |w.scopes| && NoneReleased(w, root)
    requires AllErrorsOk(w.scopes) && AllLinksOk(w) && Undisturbed(w, events, w', root)
    ensures Inv(w') && root < |w'.scopes| && AllErrorsOk(w'.scopes) && AllLinksOk(w')
    ensures Flat(Beginnings(w'.scopes), root) == Disposals(w, events, w', root)
    ensures Flat(Endings(w'.scopes), root) == DisposalsEnded(w, events, w', root)
  {
    NothingBegun(w, root);
    RunExtends(w, events, w', root);
  }

  lemma {:induction false} DoneInReverse(w: World, root: nat, disposed: seq<nat>, ended: seq<Ended>)
    requires Inv(w) && AllErrorsOk(w.scopes) && AllLinksOk(w) && root < |w.scopes| && Done(w.scopes[root])
    requires Flat(Beginnings(w.scopes), root) == disposed && Flat(Endings(w.scopes), root) == ended
    ensures disposed == Reverse(Flat(Registrations(w.scopes), root)) && IdsOf(ended) == disposed
    ensures IsFirst(w.scopes[root].first, ErrorsOf(ended))
  {
    EndedIsBegun(w, root);
    FirstOfTree(w, root);
    FirstInIsFirst(w.scopes[root].first, ErrorsOf(ended));
    BegunInReverse(w, root);
  }

  lemma {:induction false} NothingBegun(w: World, root: nat)
    requires Inv(w) && root < |w.scopes| && NoneReleased(w, root) && AllErrorsOk(w.scopes)
    ensures InOrder(w, root) && Flat(Beginnings(w.scopes), root) == [] && Flat(Endings(w.scopes), root) == []
  {
    assert IsUnder(w.scopes, root, root) && ScopeOk(w, root) && ErrorsOk(w.scopes[root]);
    assert Beginnings(w.scopes)[root] == [] && Endings(w.scopes)[root] == [];
  }

  lemma {:induction false} BegunInReverse(w: World, root: nat)
    requires Inv(w) && root < |w.scopes| && Done(w.scopes[root])
    ensures Flat(Beginnings(w.scopes), root) == Reverse(Flat(Registrations(w.scopes), root))
  {
    RegistrationsParented(w);
    forall t | 0 <= t < |w.scopes| && IsUnder(w.scopes, t, root)
      ensures Beginnings(w.scopes)[t] == Reverse(Registrations(w.scopes)[t])
    {
      DoneBelow(w, t, root);
      assert ScopeOk(w, t);
      assert w.scopes[t].begun == Reverse(w.scopes[t].registered);
    }
    FlatReversed(w.scopes, Registrations(w.scopes), Beginnings(w.scopes), root);
  }

  // ---- The release's loop, undisturbed ----

  ghost predicate Nested<X>(lists: seq<seq<Node<X>>>) {
    forall s, c: nat :: 0 <= s < |lists| && Sub(c) in lists[s] ==> s < c < |lists|
  }

  function EndedWith(ids: seq<nat>, throws: nat -> Option<Error>): (ended: seq<Ended>)
    ensures |ended| == |ids| && forall k :: 0 <= k < |ids| ==> ended[k] == Ended(ids[k], throws(ids[k]))
  {
    seq(|ids|, k requires 0 <= k < |ids| => Ended(ids[k], throws(ids[k])))
  }

  lemma {:induction false} LastItemFirst(lists: seq<seq<Node<nat>>>, s: nat, n: nat, throws: nat -> Option<Error>,
                                         ran: seq<Ended>)
    requires s < |lists| && n < |lists[s]|
    ensures ran + EndedWith(Reverse(FlatItems(lists, s, lists[s][..n + 1])), throws) ==
            ran + EndedWith(Reverse(FlatItem(lists, s, lists[s][n])), throws) +
            EndedWith(Reverse(FlatItems(lists, s, lists[s][..n])), throws)
  {
    var before, last := FlatItems(lists, s, lists[s][..n]), FlatItem(lists, s, lists[s][n]);
    assert lists[s][..n + 1][..n] == lists[s][..n];
    ReverseOfBoth(before, last);
    assert EndedWith(Reverse(last) + Reverse(before), throws) ==
           EndedWith(Reverse(last), throws) + EndedWith(Reverse(before), throws);
  }

  /**
   * The loop of `release` over what scope `s` and those under it registered,
   * where `throws` says which error each disposer throws, if any.
   */
  method ReleaseTree(lists: seq<seq<Node<nat>>>, s: nat, throws: nat -> Option<Error>)
    returns (ran: seq<Ended>, first: Option<Error>)
    requires s < |lists| && Nested(lists)
    ensures ran == EndedWith(Reverse(Flat(lists, s)), throws) && first == FirstIn(ErrorsOf(ran))
    decreases |lists| - s, 1
  {
    ran, first := [], None;
    var n := |lists[s]|;
    ghost var whole := EndedWith(Reverse(Flat(lists, s)), throws);
    assert lists[s][..n] == lists[s];
    while n > 0
      invariant 0 <= n <= |lists[s]|
      invariant whole == ran + EndedWith(Reverse(FlatItems(lists, s, lists[s][..n])), throws)
      invariant first == FirstIn(ErrorsOf(ran))
    {
      n := n - 1;
      LastItemFirst(lists, s, n, throws, ran);
      var item := lists[s][n];
      assert item in lists[s];
      var more, error := ReleaseItem(lists, s, item, throws);
      FirstAmongBoth(ran, more);
      ran := ran + more;
      if first.None? {
        first := error;
      }
    }
    NothingLeft(lists, s, throws);
  }

  lemma {:induction false} NothingLeft(lists: seq<seq<Node<nat>>>, s: nat, throws: nat -> Option<Error>)
    requires s < |lists|
    ensures EndedWith(Reverse(FlatItems(lists, s, lists[s][..0])), throws) == []
  {
    assert lists[s][..0] == [];
  }

  lemma {:induction false} FirstAmongBoth(a: seq<Ended>, b: seq<Ended>)
    ensures FirstIn(ErrorsOf(a + b)) ==
            if FirstIn(ErrorsOf(a)).Some? then FirstIn(ErrorsOf(a)) else FirstIn(ErrorsOf(b))
  {
    assert ErrorsOf(a + b) == ErrorsOf(a) + ErrorsOf(b);
    FirstInBoth(ErrorsOf(a), ErrorsOf(b));
  }

  /** One item disposed: a resource's disposer, or a child's release, which rethrows its first error. */
  method ReleaseItem(lists: seq<seq<Node<nat>>>, s: nat, item: Node<nat>, throws: nat -> Option<Error>)
    returns (ran: seq<Ended>, error: Option<Error>)
    requires s < |lists| && Nested(lists) && item in lists[s]
    ensures ran == EndedWith(Reverse(FlatItem(lists, s, item)), throws) && error == FirstIn(ErrorsOf(ran))
    decreases |lists| - s, 0
  {
    match item
    case Leaf(i) =>
      ran, error := [Ended(i, throws(i))], throws(i);
      assert Reverse([i]) == [i];
      assert ErrorsOf(ran)[1..] == [];
    case Sub(c) =>
      ran, error := ReleaseTree(lists, c, throws);
  }

  lemma {:induction false} RegistrationsAreNested(w: World, events: seq<Event>, w': World)
    requires Inv(w) && Run(w, events, w')
    ensures Nested(Registrations(w'.scopes))
  {
    RunKeepsInv(w, events, w');
    RegistrationsParented(w');
  }

  lemma {:induction false} ThrownByTheirOwn(ended: seq<Ended>, order: seq<nat>, first: Option<Error>,
                                            throws: nat -> Option<Error>)
    requires IdsOf(ended) == order && IsFirst(first, ErrorsOf(ended))
    requires forall x :: x in ended ==> x.error == throws(x.id)
    ensures ended == EndedWith(order, throws) && first == FirstIn(ErrorsOf(EndedWith(order, throws)))
  {
    assert forall k :: 0 <= k < |ended| ==> ended[k] in ended;
    assert ended == EndedWith(order, throws);
    FirstInIsFirst(first, ErrorsOf(ended));
  }

  /**
   * The interleaved run comes to what the loop alone does on the same
   * registrations, on which it can run, with the same errors thrown.
   */
  lemma {:induction false} RunIsReleaseTree(before: seq<Event>, w: World, events: seq<Event>, w': World, root: nat,
                                            throws: nat -> Option<Error>)
    requires Run(EMPTY, before, w) && Inv(w) && root < |w.scopes| && NoneReleased(w, root)
    requires Run(w, events, w') && Undisturbed(w, events, w', root)
    requires root < |w'.scopes| && Done(w'.scopes[root])
    requires forall x :: x in DisposalsEnded(w, events, w', root) ==> x.error == throws(x.id)
    ensures var ran := EndedWith(Reverse(Flat(Registrations(w'.scopes), root)), throws);
            DisposalsEnded(w, events, w', root) == ran && w'.scopes[root].first == FirstIn(ErrorsOf(ran))
    ensures Nested(Registrations(w'.scopes))
  {
    RegistrationsAreNested(w, events, w');
    TreeDisposedInReverse(before, w, events, w', root);
    ThrownByTheirOwn(DisposalsEnded(w, events, w', root), Reverse(Flat(Registrations(w'.scopes), root)),
                     w'.scopes[root].first, throws);
  }
}
