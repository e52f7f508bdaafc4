/**
 * A launch's cleanup scopes: acquisitions, late arrivals, cancellation and
 * nested release, as atomic steps that may interleave in any way.
 */
module Startup {
  import opened Wrappers

  type Error = int

  /** What a scope keeps for release: a resource's disposer, or a child scope. */
  datatype Item = Resource(id: nat) | Child(scope: nat)

  /**
   * One scope. `stack` holds what is registered until release takes it into
   * `pending`; `current` is the disposal being awaited. `registered`, `begun`
   * and `ended` are histories, for the statements below: what was registered,
   * the disposals begun, and the error, if any, each that ended threw.
   */
  datatype Scope = Scope(parent: Option<nat>, aborted: bool, stack: seq<Item>, released: bool, pending: seq<Item>,
                         current: Option<Item>, first: Option<Error>, registered: seq<Item>, begun: seq<Item>,
                         ended: seq<Option<Error>>)

  datatype Settlement = Unsettled | Fulfilled | Rejected
  datatype StepState = Waiting | Passed | Cancelled | Failed
  datatype Outcome = Running | Returned | Threw

  /** One `acquire`: its promise, the `step` awaiting it, the `kept` flag, and how often its resource was disposed. */
  datatype Acquisition = Acquisition(scope: nat, promise: Settlement, step: StepState, kept: bool, outcome: Outcome,
                                     disposals: nat)

  function Reverse<T>(s: seq<T>): (r: seq<T>)
    ensures |r| == |s| && forall i :: 0 <= i < |s| ==> r[i] == s[|s| - 1 - i]
  {
    if s == [] then [] else Reverse(s[1..]) + [s[0]]
  }

  predicate IsCancelled(s: Scope) {
    s.aborted || s.released
  }

  /** Every registered item has been disposed, and each disposal awaited. */
  predicate Done(s: Scope) {
    s.released && s.pending == [] && s.current.None?
  }

  // ---- The atomic steps ----

  /** Kept while the scope is live; refused after. */
  function Keep(s: Scope, item: Item): Scope {
    if IsCancelled(s) then s else s.(stack := s.stack + [item], registered := s.registered + [item])
  }

  function Abort(s: Scope): Scope {
    s.(aborted := true)
  }

  function Release(s: Scope): Scope {
    if s.released then s else s.(released := true, pending := Reverse(s.stack), stack := [])
  }

  function BeginNext(s: Scope): Scope
    requires s.pending != []
  {
    s.(pending := s.pending[1..], current := Some(s.pending[0]), begun := s.begun + [s.pending[0]])
  }

  function EndCurrent(s: Scope, error: Option<Error>): Scope {
    s.(current := None, first := if s.first.Some? then s.first else error, ended := s.ended + [error])
  }

  function Begin(scope: nat, s: Scope): Acquisition {
    Acquisition(scope, Unsettled, if IsCancelled(s) then Cancelled else Waiting, false, Running, 0)
  }

  /** Both reactions on the promise, back to back: dispose a late resource, then pass the step. */
  function Arrive(a: Acquisition, s: Scope): Acquisition {
    a.(promise := Fulfilled,
       disposals := if !a.kept && IsCancelled(s) then a.disposals + 1 else a.disposals,
       step := if a.step.Waiting? then Passed else a.step)
  }

  function Refuse(a: Acquisition): Acquisition {
    a.(promise := Rejected, step := if a.step.Waiting? then Failed else a.step)
  }

  function OnAbort(a: Acquisition): Acquisition {
    if a.step.Waiting? then a.(step := Cancelled) else a
  }

  /**
   * After the awaited step: register the resource, or dispose it at once and throw where the scope is cancelled by
   * then.
   */
  function Continue(a: Acquisition, s: Scope): Acquisition {
    if !a.step.Passed? then a.(outcome := Threw)
    else if IsCancelled(s) then a.(kept := true, disposals := a.disposals + 1, outcome := Threw)
    else a.(kept := true, outcome := Returned)
  }

  /** A plain `register`: a resource that exists already. */
  function Handed(scope: nat, s: Scope): Acquisition {
    if IsCancelled(s) then Acquisition(scope, Fulfilled, Passed, true, Threw, 1)
    else Acquisition(scope, Fulfilled, Passed, true, Returned, 0)
  }

  // ---- Scopes and acquisitions together ----

  datatype World = World(scopes: seq<Scope>, acquisitions: seq<Acquisition>)

  ghost predicate ParentsFirst(scopes: seq<Scope>) {
    forall i :: 0 <= i < |scopes| && scopes[i].parent.Some? ==> scopes[i].parent.value < i
  }

  ghost predicate IsUnder(scopes: seq<Scope>, t: nat, s: nat)
    requires ParentsFirst(scopes) && t < |scopes|
    decreases t
  {
    t == s || (scopes[t].parent.Some? && IsUnder(scopes, scopes[t].parent.value, s))
  }

  ghost predicate AcquiresUnder(w: World, i: nat, s: nat)
    requires ParentsFirst(w.scopes) && i < |w.acquisitions|
  {
    w.acquisitions[i].scope < |w.scopes| && IsUnder(w.scopes, w.acquisitions[i].scope, s)
  }

  /** An abort reaches every scope under `s`, and every step waiting in one, before anything else runs. */
  ghost function AbortFrom(w: World, s: nat): (v: World)
    requires ParentsFirst(w.scopes)
    ensures |v.scopes| == |w.scopes| && |v.acquisitions| == |w.acquisitions|
  {
    World(seq(|w.scopes|, t requires 0 <= t < |w.scopes| => if IsUnder(w.scopes, t, s) then Abort(w.scopes[t])
              else w.scopes[t]),
          seq(|w.acquisitions|, i requires 0 <= i < |w.acquisitions| =>
            if AcquiresUnder(w, i, s) then OnAbort(w.acquisitions[i]) else w.acquisitions[i]))
  }

  ghost function ReleaseAt(w: World, s: nat): World
    requires ParentsFirst(w.scopes) && s < |w.scopes|
  {
    var v := AbortFrom(w, s);
    v.(scopes := v.scopes[s := Release(v.scopes[s])])
  }

  datatype Event =
    | NewScope(parent: Option<nat>)
    | Register(scope: nat)
    | Acquire(scope: nat)
    | Fulfil(acquisition: nat)
    | Reject(acquisition: nat)
    | Resume(acquisition: nat)
    | StartRelease(scope: nat)
    | DisposeNext(scope: nat)
    | Disposed(scope: nat, error: Option<Error>)
    | ChildDisposed(scope: nat)

  /** The steps that can be taken: a promise settles once, a disposal begins when the one before has ended. */
  ghost predicate Enabled(w: World, e: Event) {
    match e
    case NewScope(parent) => parent.Some? ==> parent.value < |w.scopes|
    case Register(s) => s < |w.scopes|
    case Acquire(s) => s < |w.scopes|
    case Fulfil(i) => i < |w.acquisitions| && w.acquisitions[i].promise.Unsettled?
    case Reject(i) => i < |w.acquisitions| && w.acquisitions[i].promise.Unsettled?
    case Resume(i) => i < |w.acquisitions| && !w.acquisitions[i].step.Waiting? && w.acquisitions[i].outcome.Running?
    case StartRelease(s) => s < |w.scopes|
    case DisposeNext(s) => s < |w.scopes| && w.scopes[s].current.None? && w.scopes[s].pending != []
    case Disposed(s, _) => s < |w.scopes| && w.scopes[s].current.Some? && w.scopes[s].current.value.Resource?
    case ChildDisposed(s) =>
      && s < |w.scopes| && w.scopes[s].current.Some? && w.scopes[s].current.value.Child?
      && w.scopes[s].current.value.scope < |w.scopes| && Done(w.scopes[w.scopes[s].current.value.scope])
  }

  const FRESH := Scope(None, false, [], false, [], None, None, [], [], [])

  ghost function Apply(w: World, e: Event): World
    requires Inv(w) && Enabled(w, e)
  {
    match e
    case NewScope(parent) =>
      if parent.None? then w.(scopes := w.scopes + [FRESH])
      else if IsCancelled(w.scopes[parent.value]) then w
      else w.(scopes := w.scopes[parent.value := Keep(w.scopes[parent.value], Child(|w.scopes|))] +
              [FRESH.(parent := parent)])
    case Register(s) =>
      World(w.scopes[s := Keep(w.scopes[s], Resource(|w.acquisitions|))], w.acquisitions + [Handed(s, w.scopes[s])])
    case Acquire(s) => w.(acquisitions := w.acquisitions + [Begin(s, w.scopes[s])])
    case Fulfil(i) =>
      assert AcquiredOk(w, i);
      WithAcquisition(w, i, Arrive(w.acquisitions[i], w.scopes[w.acquisitions[i].scope]))
    case Reject(i) => WithAcquisition(w, i, Refuse(w.acquisitions[i]))
    case Resume(i) =>
      assert AcquiredOk(w, i);
      Resumed(w, i)
    case StartRelease(s) => ReleaseAt(w, s)
    case DisposeNext(s) => NextDisposed(w, s)
    case Disposed(s, error) => w.(scopes := w.scopes[s := EndCurrent(w.scopes[s], error)])
    case ChildDisposed(s) =>
      w.(scopes := w.scopes[s := EndCurrent(w.scopes[s], w.scopes[w.scopes[s].current.value.scope].first)])
  }

  ghost function WithAcquisition(w: World, i: nat, a: Acquisition): World
    requires i < |w.acquisitions|
  {
    w.(acquisitions := w.acquisitions[i := a])
  }

  ghost function Resumed(w: World, i: nat): World
    requires i < |w.acquisitions| && w.acquisitions[i].scope < |w.scopes|
  {
    var a := w.acquisitions[i];
    var s := w.scopes[a.scope];
    var scopes := if a.step.Passed? then w.scopes[a.scope := Keep(s, Resource(i))] else w.scopes;
    World(scopes, w.acquisitions[i := Continue(a, s)])
  }

  /** The next disposal begins: a resource's disposer runs, or a child's release starts. */
  ghost function NextDisposed(w: World, s: nat): World
    requires Inv(w) && Enabled(w, DisposeNext(s))
  {
    assert ScopeOk(w, s);
    BegunAreRegistered(w.scopes[s]);
    var item := w.scopes[s].pending[0];
    assert ItemOk(w, s, item);
    match item
    case Resource(i) =>
      World(w.scopes[s := BeginNext(w.scopes[s])],
            w.acquisitions[i := w.acquisitions[i].(disposals := w.acquisitions[i].disposals + 1)])
    case Child(c) =>
      assert ScopeOk(w, c);
      var v := ReleaseAt(w, c);
      v.(scopes := v.scopes[s := BeginNext(v.scopes[s])])
  }

  // ---- The invariant ----

  /** `i`'s place in the tree of scopes. */
  ghost predicate PlaceOk(w: World, i: nat)
    requires i < |w.scopes|
  {
    var s := w.scopes[i];
    s.parent.Some? ==>
      && s.parent.value < i
      && Child(i) in w.scopes[s.parent.value].registered
      && (w.scopes[s.parent.value].aborted ==> s.aborted)
  }

  /** What `i` holds, and how far its release has come. */
  ghost predicate LoopOk(s: Scope) {
    && Distinct(s.registered)
    && (!s.released ==> s.stack == s.registered && s.begun == [] && s.pending == [] && s.current.None?)
    && (s.released ==> s.aborted && s.stack == [] && s.begun + s.pending == Reverse(s.registered))
    && (s.current.Some? ==> s.begun != [] && s.current.value == s.begun[|s.begun| - 1])
  }

  ghost predicate ItemOk(w: World, i: nat, item: Item) {
    match item
    case Resource(a) => a < |w.acquisitions| && w.acquisitions[a].scope == i && w.acquisitions[a].outcome.Returned?
    case Child(c) => c < |w.scopes| && w.scopes[c].parent == Some(i)
  }

  ghost predicate ItemsOk(w: World, i: nat)
    requires i < |w.scopes|
  {
    forall item :: item in w.scopes[i].registered ==> ItemOk(w, i, item)
  }

  ghost predicate ChildrenOk(w: World, i: nat)
    requires i < |w.scopes|
  {
    forall c: nat :: Child(c) in w.scopes[i].begun ==>
      && c < |w.scopes| && w.scopes[c].released
      && (w.scopes[i].current == Some(Child(c)) || Done(w.scopes[c]))
  }

  ghost predicate ScopeOk(w: World, i: nat)
    requires i < |w.scopes|
  {
    PlaceOk(w, i) && LoopOk(w.scopes[i]) && ItemsOk(w, i) && ChildrenOk(w, i)
  }

  /** How an acquisition's state and its scope's determine the disposals of its resource. */
  ghost predicate AcquisitionOk(a: Acquisition, s: Scope, i: nat) {
    && (a.step.Waiting? ==> a.promise.Unsettled? && !IsCancelled(s))
    && (a.step.Passed? ==> a.promise.Fulfilled?)
    && (a.step.Failed? ==> a.promise.Rejected?)
    && (a.step.Cancelled? ==> s.aborted)
    && (a.kept <==> a.step.Passed? && !a.outcome.Running?)
    && (a.outcome.Returned? ==> a.kept)
    && (a.outcome.Returned? <==> Resource(i) in s.registered)
    && (a.step.Waiting? ==> a.outcome.Running?)
    && (a.outcome.Threw? && a.step.Passed? ==> s.aborted)
    && a.disposals == (if a.outcome.Returned? then if Resource(i) in s.begun then 1 else 0
                       else if a.promise.Fulfilled? && (a.step.Cancelled? || a.outcome.Threw?) then 1
                       else 0)
  }

  ghost predicate AcquiredOk(w: World, i: nat)
    requires i < |w.acquisitions|
  {
    w.acquisitions[i].scope < |w.scopes| && AcquisitionOk(w.acquisitions[i], w.scopes[w.acquisitions[i].scope], i)
  }

  ghost predicate Inv(w: World) {
    && (forall i :: 0 <= i < |w.scopes| ==> ScopeOk(w, i))
    && ParentsFirst(w.scopes)
    && (forall i :: 0 <= i < |w.acquisitions| ==> AcquiredOk(w, i))
  }

  // ---- Every step keeps the invariant ----

  /** Release begins exactly what was registered, each item once. */
  lemma BegunAreRegistered(s: Scope)
    requires LoopOk(s)
    ensures forall item :: item in s.begun || item in s.pending ==> item in s.registered
    ensures Distinct(s.begun + s.pending)
  {
    if s.released {
      var order := Reverse(s.registered);
      forall item | item in s.begun || item in s.pending
        ensures item in s.registered
      {
        assert item in s.begun + s.pending;
        var k :| 0 <= k < |order| && order[k] == item;
        assert item == s.registered[|order| - 1 - k];
      }
    }
  }

  lemma NewIdsAreFree(w: World, s: nat)
    requires Inv(w) && s < |w.scopes|
    ensures Child(|w.scopes|) !in w.scopes[s].registered && Resource(|w.acquisitions|) !in w.scopes[s].registered
    ensures Child(|w.scopes|) !in w.scopes[s].begun && Resource(|w.acquisitions|) !in w.scopes[s].begun
  {
    assert ScopeOk(w, s);
    BegunAreRegistered(w.scopes[s]);
    assert !ItemOk(w, s, Child(|w.scopes|)) && !ItemOk(w, s, Resource(|w.acquisitions|));
  }

  lemma NewScopeKeepsScopes(w: World, parent: nat, i: nat)
    requires Inv(w) && parent < |w.scopes| && !IsCancelled(w.scopes[parent])
    requires i <= |w.scopes|
    ensures var w' := Apply(w, NewScope(Some(parent))); |w'.scopes| == |w.scopes| + 1 && ScopeOk(w', i)
  {
    var w' := Apply(w, NewScope(Some(parent)));
    NewIdsAreFree(w, parent);
    assert ScopeOk(w, parent);
    if i < |w.scopes| {
      assert ScopeOk(w, i);
      assert PlaceOk(w', i);
      assert LoopOk(w'.scopes[i]);
      assert ItemsOk(w', i);
      assert ChildrenOk(w', i);
    } else {
      assert PlaceOk(w', i);
    }
  }

  lemma RootScopeKeepsInv(w: World)
    requires Inv(w)
    ensures Inv(Apply(w, NewScope(None)))
  {
    var w' := Apply(w, NewScope(None));
    forall i | 0 <= i < |w'.scopes|
      ensures ScopeOk(w', i)
    {
      if i < |w.scopes| {
        assert ScopeOk(w, i);
      }
    }
    forall i | 0 <= i < |w'.acquisitions|
      ensures AcquiredOk(w', i)
    {
      assert AcquiredOk(w, i);
    }
  }

  lemma NewScopeKeepsInv(w: World, parent: Option<nat>)
    requires Inv(w) && Enabled(w, NewScope(parent))
    ensures Inv(Apply(w, NewScope(parent)))
  {
    if parent.None? {
      RootScopeKeepsInv(w);
    } else if !IsCancelled(w.scopes[parent.value]) {
      var w' := Apply(w, NewScope(parent));
      forall i | 0 <= i < |w'.scopes|
        ensures ScopeOk(w', i)
      {
        NewScopeKeepsScopes(w, parent.value, i);
      }
      NewIdsAreFree(w, parent.value);
      forall i | 0 <= i < |w'.acquisitions|
        ensures AcquiredOk(w', i)
      {
        assert AcquiredOk(w, i);
      }
    }
  }

  lemma RegisterKeepsInv(w: World, s: nat)
    requires Inv(w) && Enabled(w, Register(s))
    ensures Inv(Apply(w, Register(s)))
  {
    var w' := Apply(w, Register(s));
    NewIdsAreFree(w, s);
    forall i | 0 <= i < |w'.scopes|
      ensures ScopeOk(w', i)
    {
      assert ScopeOk(w, i);
    }
    assert ScopeOk(w, s);
    forall i | 0 <= i < |w'.acquisitions|
      ensures AcquiredOk(w', i)
    {
      if i < |w.acquisitions| {
        assert AcquiredOk(w, i);
      }
    }
  }

  lemma AcquireKeepsInv(w: World, s: nat)
    requires Inv(w) && Enabled(w, Acquire(s))
    ensures Inv(Apply(w, Acquire(s)))
  {
    var w' := Apply(w, Acquire(s));
    NewIdsAreFree(w, s);
    forall i | 0 <= i < |w'.scopes|
      ensures ScopeOk(w', i)
    {
      assert ScopeOk(w, i);
    }
    assert ScopeOk(w, s);
    forall i | 0 <= i < |w'.acquisitions|
      ensures AcquiredOk(w', i)
    {
      if i < |w.acquisitions| {
        assert AcquiredOk(w, i);
      }
    }
  }

  lemma SettleKeepsInv(w: World, e: Event)
    requires Inv(w) && Enabled(w, e) && (e.Fulfil? || e.Reject?)
    ensures Inv(Apply(w, e))
  {
    var w' := Apply(w, e);
    forall i | 0 <= i < |w'.scopes|
      ensures ScopeOk(w', i)
    {
      assert ScopeOk(w, i);
    }
    forall i | 0 <= i < |w'.acquisitions|
      ensures AcquiredOk(w', i)
    {
      assert AcquiredOk(w, i) && ScopeOk(w, w.acquisitions[i].scope);
    }
  }

  lemma ResumeKeepsScopes(w: World, i: nat, t: nat)
    requires Inv(w) && Enabled(w, Resume(i)) && t < |w.scopes|
    ensures var w' := Apply(w, Resume(i)); |w'.scopes| == |w.scopes| && ScopeOk(w', t)
  {
    var w' := Apply(w, Resume(i));
    var s := w.acquisitions[i].scope;
    assert AcquiredOk(w, i) && ScopeOk(w, s) && ScopeOk(w, t);
    assert Resource(i) !in w.scopes[s].registered;
    assert PlaceOk(w', t);
    assert LoopOk(w'.scopes[t]);
    assert ItemsOk(w', t);
    assert ChildrenOk(w', t);
  }

  lemma ResumeKeepsInv(w: World, i: nat)
    requires Inv(w) && Enabled(w, Resume(i))
    ensures Inv(Apply(w, Resume(i)))
  {
    var w' := Apply(w, Resume(i));
    var s := w.acquisitions[i].scope;
    assert AcquiredOk(w, i) && ScopeOk(w, s);
    BegunAreRegistered(w.scopes[s]);
    forall t | 0 <= t < |w'.scopes|
      ensures ScopeOk(w', t) && w'.scopes[t].parent == w.scopes[t].parent
    {
      ResumeKeepsScopes(w, i, t);
    }
    forall k | 0 <= k < |w'.acquisitions|
      ensures AcquiredOk(w', k)
    {
      assert AcquiredOk(w, k);
    }
  }

  lemma EndKeepsInv(w: World, e: Event)
    requires Inv(w) && Enabled(w, e) && (e.Disposed? || e.ChildDisposed?)
    ensures Inv(Apply(w, e))
  {
    var w' := Apply(w, e);
    forall i | 0 <= i < |w'.scopes|
      ensures ScopeOk(w', i)
    {
      assert ScopeOk(w, i);
    }
    forall i | 0 <= i < |w'.acquisitions|
      ensures AcquiredOk(w', i)
    {
      assert AcquiredOk(w, i);
    }
  }

  lemma AbortKeepsInv(w: World, s: nat)
    requires Inv(w) && s < |w.scopes|
    ensures Inv(AbortFrom(w, s)) && AbortFrom(w, s).scopes[s].aborted
  {
    var w' := AbortFrom(w, s);
    forall i | 0 <= i < |w'.scopes|
      ensures ScopeOk(w', i)
    {
      assert ScopeOk(w, i);
      assert PlaceOk(w', i);
      assert LoopOk(w'.scopes[i]);
      assert ItemsOk(w', i);
      assert ChildrenOk(w', i);
    }
    forall i | 0 <= i < |w'.acquisitions|
      ensures AcquiredOk(w', i)
    {
      assert AcquiredOk(w, i);
    }
  }

  lemma ReleaseKeepsInv(w: World, s: nat)
    requires Inv(w) && s < |w.scopes| && w.scopes[s].aborted
    ensures Inv(w.(scopes := w.scopes[s := Release(w.scopes[s])]))
  {
    var w' := w.(scopes := w.scopes[s := Release(w.scopes[s])]);
    forall i | 0 <= i < |w'.scopes|
      ensures ScopeOk(w', i)
    {
      assert ScopeOk(w, i);
      assert PlaceOk(w', i);
      assert LoopOk(w'.scopes[i]);
      assert ItemsOk(w', i);
      assert ChildrenOk(w', i);
    }
    forall i | 0 <= i < |w'.acquisitions|
      ensures AcquiredOk(w', i)
    {
      assert AcquiredOk(w, i);
    }
  }

  lemma BeginChildKeepsInv(w: World, s: nat)
    requires Inv(w) && Enabled(w, DisposeNext(s)) && w.scopes[s].pending[0].Child?
    requires w.scopes[s].pending[0].scope < |w.scopes| && w.scopes[w.scopes[s].pending[0].scope].released
    ensures Inv(w.(scopes := w.scopes[s := BeginNext(w.scopes[s])]))
  {
    var w' := w.(scopes := w.scopes[s := BeginNext(w.scopes[s])]);
    assert ScopeOk(w, s);
    var item := w.scopes[s].pending[0];
    assert w'.scopes[s].begun + w'.scopes[s].pending == w.scopes[s].begun + w.scopes[s].pending;
    forall i | 0 <= i < |w'.scopes|
      ensures ScopeOk(w', i)
    {
      assert ScopeOk(w, i);
      assert PlaceOk(w', i);
      assert LoopOk(w'.scopes[i]);
      assert ItemsOk(w', i);
      assert ChildrenOk(w', i);
    }
    forall i | 0 <= i < |w'.acquisitions|
      ensures AcquiredOk(w', i)
    {
      assert AcquiredOk(w, i);
    }
  }

  lemma BeginResourceKeepsInv(w: World, s: nat)
    requires Inv(w) && Enabled(w, DisposeNext(s)) && w.scopes[s].pending[0].Resource?
    ensures Inv(NextDisposed(w, s))
  {
    var w' := NextDisposed(w, s);
    assert ScopeOk(w, s);
    BegunAreRegistered(w.scopes[s]);
    var item := w.scopes[s].pending[0];
    assert ItemOk(w, s, item);
    assert w'.scopes[s].begun + w'.scopes[s].pending == w.scopes[s].begun + w.scopes[s].pending;
    assert item !in w.scopes[s].begun by {
      var all := w.scopes[s].begun + w.scopes[s].pending;
      assert all[|w.scopes[s].begun|] == item;
      assert forall k :: 0 <= k < |w.scopes[s].begun| ==> all[k] == w.scopes[s].begun[k];
    }
    forall i | 0 <= i < |w'.scopes|
      ensures ScopeOk(w', i)
    {
      assert ScopeOk(w, i);
      assert PlaceOk(w', i);
      assert LoopOk(w'.scopes[i]);
      assert ItemsOk(w', i);
      assert ChildrenOk(w', i);
    }
    forall i | 0 <= i < |w'.acquisitions|
      ensures AcquiredOk(w', i)
    {
      assert AcquiredOk(w, i);
    }
  }

  lemma NextIsRegistered(w: World, s: nat)
    requires Inv(w) && Enabled(w, DisposeNext(s))
    ensures ItemOk(w, s, w.scopes[s].pending[0])
    ensures w.scopes[s].pending[0].Child? ==> w.scopes[s].pending[0].scope > s
  {
    assert ScopeOk(w, s);
    BegunAreRegistered(w.scopes[s]);
    assert ItemOk(w, s, w.scopes[s].pending[0]);
    if w.scopes[s].pending[0].Child? {
      assert ScopeOk(w, w.scopes[s].pending[0].scope);
    }
  }

  lemma DisposeNextKeepsInv(w: World, s: nat)
    requires Inv(w) && Enabled(w, DisposeNext(s))
    ensures Inv(NextDisposed(w, s))
  {
    NextIsRegistered(w, s);
    match w.scopes[s].pending[0]
    case Resource(_) => BeginResourceKeepsInv(w, s);
    case Child(c) =>
      AbortKeepsInv(w, c);
      ReleaseKeepsInv(AbortFrom(w, c), c);
      BeginChildKeepsInv(ReleaseAt(w, c), s);
  }

  lemma StepKeepsInv(w: World, e: Event)
    requires Inv(w) && Enabled(w, e)
    ensures Inv(Apply(w, e))
  {
    match e
    case NewScope(parent) => NewScopeKeepsInv(w, parent);
    case Register(s) => RegisterKeepsInv(w, s);
    case Acquire(s) => AcquireKeepsInv(w, s);
    case Fulfil(_) => SettleKeepsInv(w, e);
    case Reject(_) => SettleKeepsInv(w, e);
    case Resume(i) => ResumeKeepsInv(w, i);
    case StartRelease(s) =>
      AbortKeepsInv(w, s);
      ReleaseKeepsInv(AbortFrom(w, s), s);
    case DisposeNext(s) => DisposeNextKeepsInv(w, s);
    case Disposed(_, _) => EndKeepsInv(w, e);
    case ChildDisposed(_) => EndKeepsInv(w, e);
  }

  // ---- Whole runs ----

  /** `w'` is reached from `w` by `events`, in order. */
  ghost predicate Run(w: World, events: seq<Event>, w': World)
    requires Inv(w)
    decreases |events|
  {
    if events == [] then w == w'
    else Enabled(w, events[0]) && (StepKeepsInv(w, events[0]); Run(Apply(w, events[0]), events[1..], w'))
  }

  const EMPTY := World([], [])

  lemma {:induction false} RunKeepsInv(w: World, events: seq<Event>, w': World)
    requires Inv(w) && Run(w, events, w')
    ensures Inv(w')
    decreases |events|
  {
    if events != [] {
      StepKeepsInv(w, events[0]);
      RunKeepsInv(Apply(w, events[0]), events[1..], w');
    }
  }

  /** Nothing is disposed twice, and nothing is disposed while its scope is live. */
  lemma DisposedAtMostOnce(events: seq<Event>, w: World, i: nat)
    requires Run(EMPTY, events, w) && i < |w.acquisitions|
    ensures var a := w.acquisitions[i];
            && a.scope < |w.scopes|
            && a.disposals <= 1
            && (a.disposals == 1 ==> a.promise.Fulfilled? && w.scopes[a.scope].aborted)
  {
    RunKeepsInv(EMPTY, events, w);
    var a := w.acquisitions[i];
    assert AcquiredOk(w, i) && ScopeOk(w, a.scope);
  }

  /** Once a scope's release is done, so is that of every scope under it. */
  lemma {:induction false} DoneBelow(w: World, t: nat, s: nat)
    requires Inv(w) && t < |w.scopes| && s < |w.scopes|
    requires IsUnder(w.scopes, t, s) && Done(w.scopes[s])
    ensures Done(w.scopes[t])
    decreases t
  {
    if t != s {
      var p := w.scopes[t].parent.value;
      DoneBelow(w, p, s);
      assert ScopeOk(w, t) && ScopeOk(w, p);
      var order := Reverse(w.scopes[p].registered);
      var k :| 0 <= k < |order| && w.scopes[p].registered[k] == Child(t);
      assert order[|order| - 1 - k] == Child(t);
      assert w.scopes[p].begun == order;
    }
  }

  /**
   * In every run, once a scope's release is done, each resource acquired in it
   * or in a scope under it, whose arrival has been handled, was disposed exactly once.
   */
  lemma DisposedExactlyOnce(events: seq<Event>, w: World, s: nat, i: nat)
    requires Run(EMPTY, events, w) && s < |w.scopes| && Done(w.scopes[s])
    requires i < |w.acquisitions| && w.acquisitions[i].scope < |w.scopes|
    requires (RunKeepsInv(EMPTY, events, w); IsUnder(w.scopes, w.acquisitions[i].scope, s))
    requires w.acquisitions[i].promise.Fulfilled? && !w.acquisitions[i].outcome.Running?
    ensures w.acquisitions[i].disposals == 1
  {
    RunKeepsInv(EMPTY, events, w);
    var t := w.acquisitions[i].scope;
    DoneBelow(w, t, s);
    assert AcquiredOk(w, i) && ScopeOk(w, t);
    if w.acquisitions[i].outcome.Returned? {
      var order := Reverse(w.scopes[t].registered);
      var k :| 0 <= k < |order| && w.scopes[t].registered[k] == Resource(i);
      assert order[|order| - 1 - k] == Resource(i);
      assert w.scopes[t].begun == order;
    }
  }

  /** A scope done with its release has begun its disposals in the reverse of the order of registration. */
  lemma DisposedInReverse(events: seq<Event>, w: World, s: nat)
    requires Run(EMPTY, events, w) && s < |w.scopes| && Done(w.scopes[s])
    ensures w.scopes[s].begun == Reverse(w.scopes[s].registered)
  {
    RunKeepsInv(EMPTY, events, w);
    assert ScopeOk(w, s);
  }

  /** `acquire` returns its resource only by registering it, on a scope still live. */
  lemma ReturnsOnlyIfKept(w: World, e: Event, i: nat)
    requires Inv(w) && Enabled(w, e) && i < |w.acquisitions|
    requires w.acquisitions[i].scope < |w.scopes|
    ensures i < |Apply(w, e).acquisitions|
    ensures !w.acquisitions[i].outcome.Returned? && Apply(w, e).acquisitions[i].outcome.Returned? ==>
              var s := w.acquisitions[i].scope;
              && e == Resume(i) && !IsCancelled(w.scopes[s])
              && Apply(w, e).scopes[s].stack == w.scopes[s].stack + [Resource(i)]
  {
    assert AcquiredOk(w, i) && ScopeOk(w, w.acquisitions[i].scope);
    if e.DisposeNext? {
      NextIsRegistered(w, e.scope);
    }
  }

  ghost predicate KeepsNothing(s: Scope, s': Scope) {
    IsCancelled(s') && s'.registered == s.registered && s.begun <= s'.begun
  }

  lemma CancelledNextKeepsNothing(w: World, r: nat, s: nat)
    requires Inv(w) && Enabled(w, DisposeNext(r)) && s < |w.scopes| && IsCancelled(w.scopes[s])
    ensures s < |NextDisposed(w, r).scopes| && KeepsNothing(w.scopes[s], NextDisposed(w, r).scopes[s])
  {
    NextIsRegistered(w, r);
  }

  lemma CancelledStepKeepsNothing(w: World, e: Event, s: nat)
    requires Inv(w) && Enabled(w, e) && s < |w.scopes| && IsCancelled(w.scopes[s])
    ensures s < |Apply(w, e).scopes| && KeepsNothing(w.scopes[s], Apply(w, e).scopes[s])
  {
    if e.DisposeNext? {
      CancelledNextKeepsNothing(w, e.scope, s);
    } else if e.Resume? {
      assert AcquiredOk(w, e.acquisition);
    }
  }

  /** After a cancellation or a release nothing is ever kept again, and no disposal is taken back. */
  lemma {:induction false} NothingKeptAfterCancel(w: World, events: seq<Event>, w': World, s: nat)
    requires Inv(w) && Run(w, events, w') && s < |w.scopes| && IsCancelled(w.scopes[s])
    ensures s < |w'.scopes| && KeepsNothing(w.scopes[s], w'.scopes[s])
    decreases |events|
  {
    if events != [] {
      StepKeepsInv(w, events[0]);
      CancelledStepKeepsNothing(w, events[0], s);
      NothingKeptAfterCancel(Apply(w, events[0]), events[1..], w', s);
    }
  }

  lemma {:induction false} AbortedBelow(w: World, t: nat, s: nat)
    requires Inv(w) && t < |w.scopes| && s < |w.scopes|
    requires IsUnder(w.scopes, t, s) && w.scopes[s].aborted
    ensures w.scopes[t].aborted
    decreases t
  {
    if t != s {
      assert ScopeOk(w, t);
      AbortedBelow(w, w.scopes[t].parent.value, s);
    }
  }

  /** A repeated `cancel` or `release` changes nothing: the stack runs once. */
  lemma ReleasedOnce(w: World, s: nat)
    requires Inv(w) && s < |w.scopes| && w.scopes[s].released
    ensures Apply(w, StartRelease(s)) == w
  {
    assert ScopeOk(w, s);
    var v := AbortFrom(w, s);
    forall t | 0 <= t < |w.scopes|
      ensures v.scopes[t] == w.scopes[t]
    {
      if IsUnder(w.scopes, t, s) {
        AbortedBelow(w, t, s);
      }
    }
    forall i | 0 <= i < |w.acquisitions|
      ensures v.acquisitions[i] == w.acquisitions[i]
    {
      assert AcquiredOk(w, i);
    }
    assert v.scopes == w.scopes && v.acquisitions == w.acquisitions;
  }

  // ---- Errors ----

  /** `first` is the earliest error among those that ended disposals threw. */
  ghost predicate IsFirst(first: Option<Error>, errors: seq<Option<Error>>) {
    if first.None? then forall k :: 0 <= k < |errors| ==> errors[k].None?
    else exists k :: 0 <= k < |errors| && errors[k] == first && forall j :: 0 <= j < k ==> errors[j].None?
  }

  ghost predicate ErrorsOk(s: Scope) {
    IsFirst(s.first, s.ended) && |s.begun| == |s.ended| + if s.current.Some? then 1 else 0
  }

  lemma NextError(first: Option<Error>, errors: seq<Option<Error>>, error: Option<Error>)
    requires IsFirst(first, errors)
    ensures IsFirst(if first.Some? then first else error, errors + [error])
  {
    var more := errors + [error];
    if first.Some? {
      var k :| 0 <= k < |errors| && errors[k] == first && forall j :: 0 <= j < k ==> errors[j].None?;
      assert more[k] == first;
    } else if error.Some? {
      assert more[|errors|] == error;
    }
  }

  lemma StepKeepsErrors(w: World, e: Event, s: nat)
    requires Inv(w) && Enabled(w, e) && s < |Apply(w, e).scopes|
    requires s < |w.scopes| ==> ErrorsOk(w.scopes[s])
    ensures ErrorsOk(Apply(w, e).scopes[s])
  {
    if e.DisposeNext? {
      NextIsRegistered(w, e.scope);
    }
    if e.Resume? {
      assert AcquiredOk(w, e.acquisition);
    }
    if e.Disposed? && e.scope == s {
      NextError(w.scopes[s].first, w.scopes[s].ended, e.error);
    }
    if e.ChildDisposed? && e.scope == s {
      NextError(w.scopes[s].first, w.scopes[s].ended, w.scopes[w.scopes[s].current.value.scope].first);
    }
  }

  lemma {:induction false} RunKeepsErrors(w: World, events: seq<Event>, w': World)
    requires Inv(w) && Run(w, events, w')
    requires forall s :: 0 <= s < |w.scopes| ==> ErrorsOk(w.scopes[s])
    ensures forall s :: 0 <= s < |w'.scopes| ==> ErrorsOk(w'.scopes[s])
    decreases |events|
  {
    if events != [] {
      var next := Apply(w, events[0]);
      StepKeepsInv(w, events[0]);
      forall s | 0 <= s < |next.scopes|
        ensures ErrorsOk(next.scopes[s])
      {
        StepKeepsErrors(w, events[0], s);
      }
      RunKeepsErrors(next, events[1..], w');
    }
  }

  /**
   * Once a release is done every one of its disposals has ended, errors or
   * not, and the error it rethrows is the first in the order they ran.
   */
  lemma RethrowsTheFirstError(events: seq<Event>, w: World, s: nat)
    requires Run(EMPTY, events, w) && s < |w.scopes| && Done(w.scopes[s])
    ensures |w.scopes[s].ended| == |w.scopes[s].registered| && IsFirst(w.scopes[s].first, w.scopes[s].ended)
  {
    RunKeepsErrors(EMPTY, events, w);
    DisposedInReverse(events, w, s);
  }

  // ---- A started release comes to an end ----

  ghost predicate LoopEvent(e: Event) {
    e.DisposeNext? || e.Disposed? || e.ChildDisposed?
  }

  /** A parent's scopes are among its ancestors'. */
  lemma {:induction false} UnderParent(scopes: seq<Scope>, t: nat, c: nat, s: nat)
    requires ParentsFirst(scopes) && t < |scopes| && c < |scopes|
    requires IsUnder(scopes, t, c) && scopes[c].parent == Some(s)
    ensures IsUnder(scopes, t, s)
    decreases t
  {
    if t != c {
      UnderParent(scopes, scopes[t].parent.value, c, s);
    }
  }

  /** A release that is not done always has a step of its own to take, in its scope or one under it. */
  lemma {:induction false} ReleaseNeverBlocks(w: World, s: nat) returns (e: Event)
    requires Inv(w) && s < |w.scopes| && w.scopes[s].released && !Done(w.scopes[s])
    ensures LoopEvent(e) && Enabled(w, e) && IsUnder(w.scopes, e.scope, s)
    decreases |w.scopes| - s
  {
    assert ScopeOk(w, s);
    var current := w.scopes[s].current;
    if current.None? {
      e := DisposeNext(s);
    } else if current.value.Resource? {
      e := Disposed(s, None);
    } else {
      var c := current.value.scope;
      assert current.value in w.scopes[s].begun;
      BegunAreRegistered(w.scopes[s]);
      assert ItemOk(w, s, current.value);
      assert ScopeOk(w, c);
      if Done(w.scopes[c]) {
        e := ChildDisposed(s);
      } else {
        e := ReleaseNeverBlocks(w, c);
        UnderParent(w.scopes, e.scope, c, s);
      }
    }
  }

  /** Scopes keep their parents, and new ones come after. */
  ghost predicate SameParents(scopes: seq<Scope>, scopes': seq<Scope>) {
    |scopes| <= |scopes'| && forall t :: 0 <= t < |scopes| ==> scopes'[t].parent == scopes[t].parent
  }

  lemma {:induction false} SameParentsSameUnder(scopes: seq<Scope>, scopes': seq<Scope>, t: nat, s: nat)
    requires ParentsFirst(scopes) && ParentsFirst(scopes') && SameParents(scopes, scopes') && t < |scopes|
    ensures IsUnder(scopes', t, s) <==> IsUnder(scopes, t, s)
    decreases t
  {
    if scopes[t].parent.Some? {
      SameParentsSameUnder(scopes, scopes', scopes[t].parent.value, s);
    }
  }

  lemma StepKeepsParents(w: World, e: Event)
    requires Inv(w) && Enabled(w, e)
    ensures SameParents(w.scopes, Apply(w, e).scopes)
    ensures |Apply(w, e).scopes| > |w.scopes| ==>
              e.NewScope? && (e.parent.Some? ==> !IsCancelled(w.scopes[e.parent.value])) &&
              Apply(w, e).scopes[|w.scopes|] == FRESH.(parent := e.parent) && |Apply(w, e).scopes| == |w.scopes| + 1
  {
    if e.DisposeNext? {
      NextIsRegistered(w, e.scope);
    }
    if e.Resume? {
      assert AcquiredOk(w, e.acquisition);
    }
  }

  /** The disposals a scope has still to begin, twice, and the one it awaits. */
  function WorkIn(s: Scope): nat {
    2 * |s.stack| + 2 * |s.pending| + (if s.current.Some? then 1 else 0)
  }

  function Sum(values: seq<nat>): nat {
    if values == [] then 0 else Sum(values[..|values| - 1]) + values[|values| - 1]
  }

  /** The work of each scope under `s`, and none of the others'. */
  ghost function WorkEach(scopes: seq<Scope>, s: nat): (work: seq<nat>)
    requires ParentsFirst(scopes)
    ensures |work| == |scopes|
  {
    seq(|scopes|, t requires 0 <= t < |scopes| => if IsUnder(scopes, t, s) then WorkIn(scopes[t]) else 0)
  }

  /** The work left to the release of `s`. */
  ghost function WorkUnder(scopes: seq<Scope>, s: nat): nat
    requires ParentsFirst(scopes)
  {
    Sum(WorkEach(scopes, s))
  }

  lemma {:induction false} SumLess(a: seq<nat>, b: seq<nat>, s: nat)
    requires |a| == |b| && s < |a| && b[s] + 1 == a[s]
    requires forall i :: 0 <= i < |a| && i != s ==> b[i] == a[i]
    ensures Sum(b) + 1 == Sum(a)
  {
    var n := |a| - 1;
    if s == n {
      assert a[..n] == b[..n];
    } else {
      SumLess(a[..n], b[..n], s);
    }
  }

  lemma NextOnWork(w: World, r: nat, t: nat)
    requires Inv(w) && Enabled(w, DisposeNext(r)) && t < |w.scopes| && IsCancelled(w.scopes[t])
    ensures t < |NextDisposed(w, r).scopes|
    ensures WorkIn(NextDisposed(w, r).scopes[t]) == WorkIn(w.scopes[t]) - if r == t then 1 else 0
  {
    assert ScopeOk(w, t);
    NextIsRegistered(w, r);
  }

  lemma ReleaseOnWork(w: World, r: nat, t: nat)
    requires Inv(w) && Enabled(w, StartRelease(r)) && t < |w.scopes| && IsCancelled(w.scopes[t])
    ensures |ReleaseAt(w, r).scopes| == |w.scopes| && WorkIn(ReleaseAt(w, r).scopes[t]) == WorkIn(w.scopes[t])
  {
    assert ScopeOk(w, t);
  }

  /** A step's effect on one scope's work, where the scope's own registrations are closed. */
  lemma StepOnWork(w: World, e: Event, t: nat)
    requires Inv(w) && Enabled(w, e) && t < |w.scopes| && IsCancelled(w.scopes[t])
    ensures t < |Apply(w, e).scopes|
    ensures WorkIn(Apply(w, e).scopes[t]) == WorkIn(w.scopes[t]) - if LoopEvent(e) && e.scope == t then 1 else 0
  {
    if e.DisposeNext? {
      NextOnWork(w, e.scope, t);
    } else if e.StartRelease? {
      ReleaseOnWork(w, e.scope, t);
    } else if e.Resume? {
      assert AcquiredOk(w, e.acquisition);
    } else {
      assert ScopeOk(w, t);
    }
  }

  /** One step of the release of `s`: of its loop, or that of a scope under it. */
  ghost predicate StepUnder(w: World, e: Event, s: nat)
    requires Inv(w) && Enabled(w, e)
  {
    LoopEvent(e) && IsUnder(w.scopes, e.scope, s)
  }

  lemma WorkAt(w: World, e: Event, s: nat, t: nat)
    requires Inv(w) && Enabled(w, e) && s < |w.scopes| && w.scopes[s].released && t < |w.scopes|
    ensures Inv(Apply(w, e)) && t < |Apply(w, e).scopes|
    ensures WorkEach(Apply(w, e).scopes, s)[t] ==
            WorkEach(w.scopes, s)[t] - if StepUnder(w, e, s) && e.scope == t then 1 else 0
  {
    StepKeepsInv(w, e);
    StepKeepsParents(w, e);
    SameParentsSameUnder(w.scopes, Apply(w, e).scopes, t, s);
    if IsUnder(w.scopes, t, s) {
      assert ScopeOk(w, s);
      AbortedBelow(w, t, s);
      StepOnWork(w, e, t);
    }
  }

  /** Once `s` is released, each step of its release uses up one unit of its work, and no other step adds any. */
  lemma ReleaseUsesUpWork(w: World, e: Event, s: nat)
    requires Inv(w) && Enabled(w, e) && s < |w.scopes| && w.scopes[s].released
    ensures Inv(Apply(w, e))
    ensures WorkUnder(Apply(w, e).scopes, s) == WorkUnder(w.scopes, s) - if StepUnder(w, e, s) then 1 else 0
  {
    StepKeepsInv(w, e);
    StepKeepsParents(w, e);
    var a, b, n := WorkEach(w.scopes, s), WorkEach(Apply(w, e).scopes, s), |w.scopes|;
    forall t | 0 <= t < n
      ensures b[t] == a[t] - if StepUnder(w, e, s) && e.scope == t then 1 else 0
    {
      WorkAt(w, e, s, t);
    }
    if |b| > n {
      NewScopeIsElsewhere(w, e, s);
      assert b[n] == 0;
    }
    WorkSums(a, b[..n], if StepUnder(w, e, s) then Some(e.scope) else None);
    assert |b| == n ==> b[..n] == b;
  }

  lemma WorkSums(a: seq<nat>, b: seq<nat>, step: Option<nat>)
    requires |a| == |b| && (step.Some? ==> step.value < |a|)
    requires forall t :: 0 <= t < |a| ==> b[t] + (if step == Some(t) then 1 else 0) == a[t]
    ensures Sum(b) + (if step.Some? then 1 else 0) == Sum(a)
  {
    if step.Some? {
      SumLess(a, b, step.value);
    } else {
      assert a == b;
    }
  }

  lemma NewScopeIsElsewhere(w: World, e: Event, s: nat)
    requires Inv(w) && Enabled(w, e) && s < |w.scopes| && w.scopes[s].released && |Apply(w, e).scopes| > |w.scopes|
    ensures Inv(Apply(w, e)) && !IsUnder(Apply(w, e).scopes, |w.scopes|, s)
  {
    StepKeepsInv(w, e);
    StepKeepsParents(w, e);
    assert ScopeOk(w, s);
    if e.parent.Some? {
      SameParentsSameUnder(w.scopes, Apply(w, e).scopes, e.parent.value, s);
      if IsUnder(w.scopes, e.parent.value, s) {
        AbortedBelow(w, e.parent.value, s);
      }
    }
  }

  /** The steps of the release of `s` in a run. */
  ghost function StepsUnder(w: World, events: seq<Event>, w': World, s: nat): nat
    requires Inv(w) && Run(w, events, w')
    decreases |events|
  {
    if events == [] then 0
    else
      StepKeepsInv(w, events[0]);
      (if StepUnder(w, events[0], s) then 1 else 0) + StepsUnder(Apply(w, events[0]), events[1..], w', s)
  }

  /**
   * Whatever else runs in between, a started release ends after exactly as
   * many of its own steps as there was work when it started.
   */
  lemma {:induction false} ReleaseEnds(w: World, events: seq<Event>, w': World, s: nat)
    requires Inv(w) && Run(w, events, w') && s < |w.scopes| && w.scopes[s].released
    ensures Inv(w') && s < |w'.scopes| && w'.scopes[s].released
    ensures StepsUnder(w, events, w', s) + WorkUnder(w'.scopes, s) == WorkUnder(w.scopes, s)
    ensures WorkUnder(w'.scopes, s) == 0 <==> Done(w'.scopes[s])
    decreases |events|
  {
    if events == [] {
      NoWorkIsDone(w, s);
    } else {
      StepKeepsInv(w, events[0]);
      ReleaseUsesUpWork(w, events[0], s);
      StaysReleased(w, events[0], s);
      ReleaseEnds(Apply(w, events[0]), events[1..], w', s);
    }
  }

  lemma StaysReleased(w: World, e: Event, s: nat)
    requires Inv(w) && Enabled(w, e) && s < |w.scopes| && w.scopes[s].released
    ensures s < |Apply(w, e).scopes| && Apply(w, e).scopes[s].released
  {
    if e.DisposeNext? {
      NextIsRegistered(w, e.scope);
    }
    if e.Resume? {
      assert AcquiredOk(w, e.acquisition);
    }
  }

  lemma {:induction false} SumIsZero(values: seq<nat>)
    ensures Sum(values) == 0 <==> forall i :: 0 <= i < |values| ==> values[i] == 0
  {
    if values != [] {
      SumIsZero(values[..|values| - 1]);
    }
  }

  lemma NoWorkIsDone(w: World, s: nat)
    requires Inv(w) && s < |w.scopes| && w.scopes[s].released
    ensures WorkUnder(w.scopes, s) == 0 <==> Done(w.scopes[s])
  {
    var work := WorkEach(w.scopes, s);
    SumIsZero(work);
    assert work[s] == WorkIn(w.scopes[s]);
    assert ScopeOk(w, s);
    if Done(w.scopes[s]) {
      forall t | 0 <= t < |work|
        ensures work[t] == 0
      {
        if IsUnder(w.scopes, t, s) {
          DoneBelow(w, t, s);
          assert ScopeOk(w, t);
        }
      }
    }
  }

  lemma {:induction false} RunStep(w: World, e: Event, events: seq<Event>, w': World)
    requires Inv(w) && Enabled(w, e)
    requires (StepKeepsInv(w, e); Run(Apply(w, e), events, w'))
    ensures Run(w, [e] + events, w')
  {
    StepKeepsInv(w, e);
    assert ([e] + events)[1..] == events;
  }

  /** Any release can be carried through from any state, by its own steps alone. */
  lemma ReleaseCanFinish(w: World, s: nat) returns (events: seq<Event>, w': World)
    requires Inv(w) && s < |w.scopes|
    ensures Run(w, [StartRelease(s)] + events, w') && s < |w'.scopes| && Done(w'.scopes[s])
    ensures forall e :: e in events ==> LoopEvent(e)
  {
    StepKeepsInv(w, StartRelease(s));
    events, w' := StepsToDone(Apply(w, StartRelease(s)), s);
    RunStep(w, StartRelease(s), events, w');
  }

  lemma {:induction false} StepsToDone(w: World, s: nat) returns (events: seq<Event>, w': World)
    requires Inv(w) && s < |w.scopes| && w.scopes[s].released
    ensures Run(w, events, w') && s < |w'.scopes| && Done(w'.scopes[s])
    ensures forall e :: e in events ==> LoopEvent(e)
    decreases WorkUnder(w.scopes, s)
  {
    if Done(w.scopes[s]) {
      events, w' := [], w;
    } else {
      var e := ReleaseNeverBlocks(w, s);
      StepKeepsInv(w, e);
      ReleaseUsesUpWork(w, e, s);
      StaysReleased(w, e, s);
      var rest;
      rest, w' := StepsToDone(Apply(w, e), s);
      events := [e] + rest;
      RunStep(w, e, rest, w');
    }
  }

  // ---- What a call comes to, nothing between ----

  /** A new scope is live and empty, and its parent keeps it; under a cancelled parent there is none. */
  lemma NewScopeOpens(w: World, parent: Option<nat>)
    requires Inv(w) && Enabled(w, NewScope(parent))
    ensures var w', n := Apply(w, NewScope(parent)), |w.scopes|;
            if parent.Some? && (w.scopes[parent.value].aborted || w.scopes[parent.value].released) then w' == w
            else
              && w'.acquisitions == w.acquisitions && |w'.scopes| == n + 1
              && !w'.scopes[n].aborted && !w'.scopes[n].released
              && w'.scopes[n].registered == [] && w'.scopes[n].parent == parent
              && forall t :: 0 <= t < n ==>
                   w'.scopes[t] == if parent == Some(t)
                                   then w.scopes[t].(stack := w.scopes[t].stack + [Child(n)],
                                                     registered := w.scopes[t].registered + [Child(n)])
                                   else w.scopes[t]
  {
  }

  /** A resource handed over is kept and returned on a live scope, and otherwise disposed at once. */
  lemma RegisterKeeps(w: World, s: nat)
    requires Inv(w) && Enabled(w, Register(s))
    ensures var w', i := Apply(w, Register(s)), |w.acquisitions|;
            && |w'.acquisitions| == i + 1 && w'.acquisitions[..i] == w.acquisitions
            && if w.scopes[s].aborted || w.scopes[s].released
               then w'.scopes == w.scopes && w'.acquisitions[i].outcome.Threw? && w'.acquisitions[i].disposals == 1
               else
                 && w'.scopes == w.scopes[s := w.scopes[s].(stack := w.scopes[s].stack + [Resource(i)],
                                                            registered := w.scopes[s].registered + [Resource(i)])]
                 && w'.acquisitions[i].outcome.Returned? && w'.acquisitions[i].disposals == 0
  {
  }

  /** Acquired on a live scope, the resource is registered last and returned. */
  lemma AcquireReturns(w: World, s: nat) returns (w': World)
    requires Inv(w) && s < |w.scopes| && !IsCancelled(w.scopes[s])
    ensures var i := |w.acquisitions|;
            && Run(w, [Acquire(s), Fulfil(i), Resume(i)], w')
            && w'.acquisitions == w.acquisitions + [Acquisition(s, Fulfilled, Passed, true, Returned, 0)]
            && w'.scopes == w.scopes[s := w.scopes[s].(stack := w.scopes[s].stack + [Resource(i)],
                                                       registered := w.scopes[s].registered + [Resource(i)])]
  {
    var i := |w.acquisitions|;
    w' := RunThree(w, Acquire(s), Fulfil(i), Resume(i));
  }

  /** A promise that rejects throws, and keeps and disposes nothing. */
  lemma AcquireFails(w: World, s: nat) returns (w': World)
    requires Inv(w) && s < |w.scopes| && !IsCancelled(w.scopes[s])
    ensures var i := |w.acquisitions|;
            && Run(w, [Acquire(s), Reject(i), Resume(i)], w')
            && w'.acquisitions == w.acquisitions + [Acquisition(s, Rejected, Failed, false, Threw, 0)]
            && w'.scopes == w.scopes
  {
    var i := |w.acquisitions|;
    w' := RunThree(w, Acquire(s), Reject(i), Resume(i));
  }

  /** On a cancelled scope it throws without waiting, and the resource is disposed when it arrives. */
  lemma AcquireWhenCancelled(w: World, s: nat) returns (w': World)
    requires Inv(w) && s < |w.scopes| && IsCancelled(w.scopes[s])
    ensures var i := |w.acquisitions|;
            && Run(w, [Acquire(s), Resume(i), Fulfil(i)], w')
            && w'.acquisitions == w.acquisitions + [Acquisition(s, Fulfilled, Cancelled, false, Threw, 1)]
            && w'.scopes == w.scopes
  {
    var i := |w.acquisitions|;
    w' := RunThree(w, Acquire(s), Resume(i), Fulfil(i));
  }

  lemma RunThree(w: World, d: Event, e: Event, f: Event) returns (w': World)
    requires Inv(w) && Enabled(w, d)
    requires (StepKeepsInv(w, d); Enabled(Apply(w, d), e))
    requires (StepKeepsInv(w, d); StepKeepsInv(Apply(w, d), e); Enabled(Apply(Apply(w, d), e), f))
    ensures Run(w, [d, e, f], w')
    ensures (StepKeepsInv(w, d); StepKeepsInv(Apply(w, d), e); w' == Apply(Apply(Apply(w, d), e), f))
  {
    StepKeepsInv(w, d);
    StepKeepsInv(Apply(w, d), e);
    StepKeepsInv(Apply(Apply(w, d), e), f);
    w' := Apply(Apply(Apply(w, d), e), f);
    RunStep(Apply(Apply(w, d), e), f, [], w');
    RunStep(Apply(w, d), e, [f] + [], w');
    RunStep(w, d, [e] + ([f] + []), w');
    assert [d] + ([e] + ([f] + [])) == [d, e, f];
  }

  // ---- The scope and the acquisition as objects: each method one atomic step ----

  class StartupScope {
    const parent: Option<nat>
    var aborted: bool
    var stack: seq<Item>
    var released: bool
    var pending: seq<Item>
    var current: Option<Item>
    var first: Option<Error>
    ghost var registered: seq<Item>
    ghost var begun: seq<Item>
    ghost var ended: seq<Option<Error>>

    ghost function State(): Scope
      reads this
    {
      Scope(parent, aborted, stack, released, pending, current, first, registered, begun, ended)
    }

    constructor (parent: Option<nat>)
      ensures State() == FRESH.(parent := parent)
    {
      this.parent := parent;
      aborted, stack, released, pending, current, first := false, [], false, [], None, None;
      registered, begun, ended := [], [], [];
    }

    /** `register`: whether the item was kept; a refused item is for the caller to dispose at once. */
    method Register(item: Item) returns (kept: bool)
      modifies this
      ensures kept <==> !IsCancelled(old(State()))
      ensures State() == Keep(old(State()), item)
    {
      kept := !aborted && !released;
      if kept {
        stack := stack + [item];
        registered := registered + [item];
      }
    }

    method OnParentAbort()
      modifies this
      ensures State() == Abort(old(State()))
    {
      aborted := true;
    }

    /** `cancel` and `release` alike: abort, then take the stack once, last first. */
    method StartRelease()
      modifies this
      ensures State() == Release(Abort(old(State())))
    {
      aborted := true;
      if !released {
        released, pending, stack := true, Reverse(stack), [];
      }
    }

    method BeginDisposal() returns (item: Item)
      requires pending != []
      modifies this
      ensures State() == BeginNext(old(State())) && current == Some(item)
    {
      item := pending[0];
      pending, current := pending[1..], Some(item);
      begun := begun + [item];
    }

    method EndDisposal(error: Option<Error>)
      modifies this
      ensures State() == EndCurrent(old(State()), error)
    {
      current := None;
      ended := ended + [error];
      if first.None? {
        first := error;
      }
    }
  }

  class AcquireCall {
    const at: nat
    const scope: StartupScope
    var promise: Settlement
    var step: StepState
    var kept: bool
    var outcome: Outcome
    var disposals: nat

    ghost function State(): Acquisition
      reads this
    {
      Acquisition(at, promise, step, kept, outcome, disposals)
    }

    constructor (at: nat, scope: StartupScope)
      ensures this.scope == scope && this.at == at
      ensures State() == Begin(at, scope.State())
    {
      this.at, this.scope := at, scope;
      promise, kept, outcome, disposals := Unsettled, false, Running, 0;
      step := if scope.aborted || scope.released then Cancelled else Waiting;
    }

    method Fulfil()
      requires promise.Unsettled?
      modifies this
      ensures State() == Arrive(old(State()), scope.State())
    {
      promise := Fulfilled;
      if !kept && (scope.aborted || scope.released) {
        disposals := disposals + 1;
      }
      if step.Waiting? {
        step := Passed;
      }
    }

    method Reject()
      requires promise.Unsettled?
      modifies this
      ensures State() == Refuse(old(State()))
    {
      promise := Rejected;
      if step.Waiting? {
        step := Failed;
      }
    }

    method Abort()
      modifies this
      ensures State() == OnAbort(old(State()))
    {
      if step.Waiting? {
        step := Cancelled;
      }
    }

    /** After the awaited step has settled: what is left of `acquire`. */
    method Resume(id: nat)
      requires !step.Waiting? && outcome.Running?
      modifies this, scope
      ensures State() == Continue(old(State()), old(scope.State()))
      ensures scope.State() == if old(step.Passed?) then Keep(old(scope.State()), Resource(id)) else old(scope.State())
    {
      if !step.Passed? {
        outcome := Threw;
        return;
      }
      kept := true;
      var registered := scope.Register(Resource(id));
      if registered {
        outcome := Returned;
      } else {
        disposals := disposals + 1;
        outcome := Threw;
      }
    }
  }
}
