/** The preview's narrowing diff: what each proposed entry lost among the fragments derived for its resource. */
module ProposalDiff {
  import opened Wrappers

  datatype Amount = Amount(amount: string, currency: string)

  /** An Authority Set entry; absent vendors read as none. */
  datatype Entry = Entry(resource: string, actions: seq<string>, cap: Option<Amount>, vendors: seq<string>)

  datatype Tightening = Tightening(name: string, proposed: string, granted: string)

  datatype Diff = Diff(resource: string, actionsDropped: seq<string>, vendorsDropped: seq<string>,
                       tightened: seq<Tightening>)

  function CapText(cap: Option<Amount>): string {
    if cap.None? then "unbounded" else cap.value.amount + " " + cap.value.currency
  }

  function CapKey(cap: Amount): string {
    cap.amount + "|" + cap.currency
  }

  function Applicable(derived: seq<Entry>, resource: string): (a: seq<Entry>)
    ensures forall d :: d in a <==> d in derived && d.resource == resource
  {
    if derived == [] then []
    else
      var last := derived[|derived| - 1];
      Applicable(derived[..|derived| - 1], resource) + if last.resource == resource then [last] else []
  }

  predicate SharesAnAction(d: Entry, p: Entry) {
    exists a :: a in d.actions && a in p.actions
  }

  /** The fragment tightens `p`: it grants one of `p`'s actions, under a cap other than the one proposed. */
  predicate Tightens(d: Entry, p: Entry) {
    SharesAnAction(d, p) && d.cap.Some? && d.cap != p.cap
  }

  predicate Seen(caps: seq<Amount>, key: string) {
    exists i :: 0 <= i < |caps| && CapKey(caps[i]) == key
  }

  /** The caps reported once fragment `d` has been looked at: a new one joins unless its key was seen. */
  function Reported(caps: seq<Amount>, d: Entry, p: Entry): seq<Amount> {
    if Tightens(d, p) && !Seen(caps, CapKey(d.cap.value)) then caps + [d.cap.value] else caps
  }

  function CapsOf(fragments: seq<Entry>, p: Entry): seq<Amount> {
    if fragments == [] then [] else Reported(CapsOf(fragments[..|fragments| - 1], p), fragments[|fragments| - 1], p)
  }

  function Tightenings(caps: seq<Amount>, p: Entry): (t: seq<Tightening>)
    ensures |t| == |caps|
    ensures forall i :: 0 <= i < |caps| ==> t[i] == Tightening("max_amount", CapText(p.cap), CapText(Some(caps[i])))
  {
    seq(|caps|, i requires 0 <= i < |caps| => Tightening("max_amount", CapText(p.cap), CapText(Some(caps[i]))))
  }

  predicate GrantsAction(fragments: seq<Entry>, action: string) {
    exists i :: 0 <= i < |fragments| && action in fragments[i].actions
  }

  predicate GrantsVendor(fragments: seq<Entry>, vendor: string) {
    exists i :: 0 <= i < |fragments| && vendor in fragments[i].vendors
  }

  function Dropped(wanted: seq<string>, granted: string -> bool): (d: seq<string>)
    ensures forall x :: x in d <==> x in wanted && !granted(x)
  {
    if wanted == [] then []
    else
      var last := wanted[|wanted| - 1];
      assert wanted == wanted[..|wanted| - 1] + [last];
      Dropped(wanted[..|wanted| - 1], granted) + if granted(last) then [] else [last]
  }

  function DiffOf(p: Entry, derived: seq<Entry>): Diff {
    DiffOver(p, Applicable(derived, p.resource))
  }

  function DiffOver(p: Entry, fragments: seq<Entry>): Diff {
    Diff(p.resource, Dropped(p.actions, a => GrantsAction(fragments, a)),
         Dropped(p.vendors, v => GrantsVendor(fragments, v)),
         Tightenings(CapsOf(fragments, p), p))
  }

  // ---- What a diff says, of the derived entries alone ----

  /** Some derived entry of the resource lists the action. */
  ghost predicate SomeGrants(derived: seq<Entry>, resource: string, action: string) {
    exists d :: d in derived && d.resource == resource && action in d.actions
  }

  ghost predicate SomeGrantsTo(derived: seq<Entry>, resource: string, vendor: string) {
    exists d :: d in derived && d.resource == resource && vendor in d.vendors
  }

  /** A derived entry of the resource that grants one of `p`'s actions, under a cap other than the one proposed. */
  ghost predicate Narrows(d: Entry, p: Entry) {
    && d.resource == p.resource && (exists a :: a in d.actions && a in p.actions)
    && d.cap.Some? && (p.cap.Some? ==> d.cap.value != p.cap.value)
  }

  /** No narrowing entry before it has its amount and currency under one key. */
  ghost predicate FirstUnderItsKey(derived: seq<Entry>, k: nat, p: Entry)
    requires k < |derived|
  {
    && Narrows(derived[k], p)
    && forall j :: 0 <= j < k && Narrows(derived[j], p) ==>
         derived[j].cap.value.amount + "|" + derived[j].cap.value.currency !=
         derived[k].cap.value.amount + "|" + derived[k].cap.value.currency
  }

  /** The actions no derived entry of the resource lists, in their order, repeats kept. */
  ghost predicate AreActionsDropped(dropped: seq<string>, p: Entry, derived: seq<Entry>) {
    exists at :: Selects(at, p.actions, dropped) &&
      forall k :: 0 <= k < |p.actions| ==> (k in at <==> !SomeGrants(derived, p.resource, p.actions[k]))
  }

  ghost predicate AreVendorsDropped(dropped: seq<string>, p: Entry, derived: seq<Entry>) {
    exists at :: Selects(at, p.vendors, dropped) &&
      forall k :: 0 <= k < |p.vendors| ==> (k in at <==> !SomeGrantsTo(derived, p.resource, p.vendors[k]))
  }

  /** `t` reports the caps at `at`, each as proposed and granted. */
  ghost predicate ReportsCaps(at: seq<nat>, t: seq<Tightening>, p: Entry, derived: seq<Entry>) {
    && Ascending(at, |derived|) && |t| == |at|
    && forall i :: 0 <= i < |at| ==>
         && derived[at[i]].cap.Some? && t[i].name == "max_amount"
         && t[i].proposed == (if p.cap.None? then "unbounded" else p.cap.value.amount + " " + p.cap.value.currency)
         && t[i].granted == derived[at[i]].cap.value.amount + " " + derived[at[i]].cap.value.currency
  }

  /** One report for each cap first met among the narrowing entries, in their order. */
  ghost predicate AreTightened(t: seq<Tightening>, p: Entry, derived: seq<Entry>) {
    exists at :: ReportsCaps(at, t, p, derived) &&
      forall k :: 0 <= k < |derived| ==> (k in at <==> FirstUnderItsKey(derived, k, p))
  }

  ghost predicate IsDiff(diff: Diff, p: Entry, derived: seq<Entry>) {
    && diff.resource == p.resource && AreActionsDropped(diff.actionsDropped, p, derived)
    && AreVendorsDropped(diff.vendorsDropped, p, derived) && AreTightened(diff.tightened, p, derived)
  }

  ghost predicate PlacesRefused(at: seq<nat>, wanted: seq<string>, granted: string -> bool) {
    forall k :: 0 <= k < |wanted| ==> (k in at <==> !granted(wanted[k]))
  }

  lemma PlacesRefusedNext(at: seq<nat>, front: seq<string>, x: string, granted: string -> bool)
    requires PlacesRefused(at, front, granted) && Ascending(at, |front|)
    ensures PlacesRefused(if granted(x) then at else at + [|front|], front + [x], granted)
  {
  }

  lemma DroppedNext(front: seq<string>, x: string, granted: string -> bool)
    ensures Dropped(front + [x], granted) ==
            if granted(x) then Dropped(front, granted) else Dropped(front, granted) + [x]
  {
    assert (front + [x])[..|front|] == front;
  }

  lemma {:induction false} DroppedAt(wanted: seq<string>, granted: string -> bool) returns (at: seq<nat>)
    ensures Selects(at, wanted, Dropped(wanted, granted)) && PlacesRefused(at, wanted, granted)
  {
    at := [];
    if wanted != [] {
      var front, x := wanted[..|wanted| - 1], wanted[|wanted| - 1];
      assert wanted == front + [x];
      at := DroppedAt(front, granted);
      SelectsNext(at, front, Dropped(front, granted), x, !granted(x));
      PlacesRefusedNext(at, front, x, granted);
      DroppedNext(front, x, granted);
      at := if granted(x) then at else at + [|front|];
    }
  }

  lemma GrantedIsListed(derived: seq<Entry>, resource: string, x: string)
    ensures GrantsAction(Applicable(derived, resource), x) <==> SomeGrants(derived, resource, x)
    ensures GrantsVendor(Applicable(derived, resource), x) <==> SomeGrantsTo(derived, resource, x)
  {
    var fragments := Applicable(derived, resource);
    if SomeGrants(derived, resource, x) {
      var d :| d in derived && d.resource == resource && x in d.actions;
      assert d in fragments;
    }
    if SomeGrantsTo(derived, resource, x) {
      var d :| d in derived && d.resource == resource && x in d.vendors;
      assert d in fragments;
    }
    forall i | 0 <= i < |fragments|
      ensures fragments[i] in derived && fragments[i].resource == resource
    {
      assert fragments[i] in fragments;
    }
  }

  lemma ApplicableNext(front: seq<Entry>, d: Entry, resource: string)
    ensures Applicable(front + [d], resource) ==
            Applicable(front, resource) + if d.resource == resource then [d] else []
  {
    assert (front + [d])[..|front|] == front;
  }

  lemma CapsNext(fragments: seq<Entry>, d: Entry, p: Entry)
    ensures CapsOf(fragments + [d], p) == Reported(CapsOf(fragments, p), d, p)
  {
    assert (fragments + [d])[..|fragments|] == fragments;
  }

  lemma NarrowsExactly(d: Entry, p: Entry)
    ensures Narrows(d, p) <==> d.resource == p.resource && Tightens(d, p)
  {
  }

  lemma CapsOfOneMore(front: seq<Entry>, d: Entry, p: Entry)
    ensures var caps := CapsOf(Applicable(front, p.resource), p);
            CapsOf(Applicable(front + [d], p.resource), p) ==
            if Narrows(d, p) && !Seen(caps, CapKey(d.cap.value)) then caps + [d.cap.value] else caps
  {
    var fragments := Applicable(front, p.resource);
    ApplicableNext(front, d, p.resource);
    if d.resource == p.resource {
      NarrowsExactly(d, p);
      CapsNext(fragments, d, p);
    } else {
      assert Applicable(front + [d], p.resource) == fragments;
    }
  }

  ghost predicate KeyMet(derived: seq<Entry>, p: Entry, key: string) {
    exists j :: 0 <= j < |derived| && Narrows(derived[j], p) && CapKey(derived[j].cap.value) == key
  }

  lemma KeyMetNext(front: seq<Entry>, d: Entry, p: Entry, key: string)
    ensures KeyMet(front + [d], p, key) <==>
            KeyMet(front, p, key) || (Narrows(d, p) && CapKey(d.cap.value) == key)
  {
    assert (front + [d])[|front|] == d;
    if KeyMet(front, p, key) {
      var j :| 0 <= j < |front| && Narrows(front[j], p) && CapKey(front[j].cap.value) == key;
      assert (front + [d])[j] == front[j];
    }
  }

  /** The keys seen are those of the narrowing entries. */
  lemma {:induction false} SeenIsMet(derived: seq<Entry>, p: Entry, key: string)
    ensures Seen(CapsOf(Applicable(derived, p.resource), p), key) <==> KeyMet(derived, p, key)
  {
    if derived != [] {
      var front, d := derived[..|derived| - 1], derived[|derived| - 1];
      assert derived == front + [d];
      SeenIsMet(front, p, key);
      KeyMetNext(front, d, p, key);
      CapsOfOneMore(front, d, p);
      if d.cap.Some? {
        SeenNext(CapsOf(Applicable(front, p.resource), p), d.cap.value);
      }
    }
  }

  /** `caps` are those first met among the narrowing entries, standing at `at`. */
  ghost predicate CapsStand(at: seq<nat>, caps: seq<Amount>, derived: seq<Entry>, p: Entry) {
    && Ascending(at, |derived|) && |at| == |caps|
    && (forall i :: 0 <= i < |at| ==> derived[at[i]].cap == Some(caps[i]))
    && forall k :: 0 <= k < |derived| ==> (k in at <==> FirstUnderItsKey(derived, k, p))
  }

  lemma FirstIsUnmet(derived: seq<Entry>, k: nat, p: Entry)
    requires k < |derived|
    ensures FirstUnderItsKey(derived, k, p) <==>
            Narrows(derived[k], p) && !KeyMet(derived[..k], p, CapKey(derived[k].cap.value))
  {
    assert forall j :: 0 <= j < k ==> derived[..k][j] == derived[j];
  }

  lemma CapsStandNext(at: seq<nat>, caps: seq<Amount>, front: seq<Entry>, d: Entry, p: Entry)
    requires CapsStand(at, caps, front, p)
    ensures if FirstUnderItsKey(front + [d], |front|, p)
            then CapsStand(at + [|front|], caps + [d.cap.value], front + [d], p)
            else CapsStand(at, caps, front + [d], p)
  {
    var derived := front + [d];
    forall k | 0 <= k < |front|
      ensures FirstUnderItsKey(derived, k, p) <==> FirstUnderItsKey(front, k, p)
    {
      assert derived[..k] == front[..k];
      FirstIsUnmet(derived, k, p);
      FirstIsUnmet(front, k, p);
    }
  }

  lemma {:induction false} CapsAt(derived: seq<Entry>, p: Entry) returns (at: seq<nat>)
    ensures CapsStand(at, CapsOf(Applicable(derived, p.resource), p), derived, p)
  {
    at := [];
    if derived != [] {
      var n := |derived| - 1;
      var front, d := derived[..n], derived[n];
      at := CapsAt(front, p);
      assert derived == front + [d] && derived[..n] == front;
      CapsStandNext(at, CapsOf(Applicable(front, p.resource), p), front, d, p);
      CapsOfOneMore(front, d, p);
      FirstIsUnmet(derived, n, p);
      if Narrows(d, p) {
        SeenIsMet(front, p, CapKey(d.cap.value));
      }
      if FirstUnderItsKey(derived, n, p) {
        at := at + [n];
      }
    }
  }

  lemma TightenedIsExact(p: Entry, derived: seq<Entry>)
    ensures AreTightened(Tightenings(CapsOf(Applicable(derived, p.resource), p), p), p, derived)
  {
    var at := CapsAt(derived, p);
    assert ReportsCaps(at, Tightenings(CapsOf(Applicable(derived, p.resource), p), p), p, derived);
  }

  lemma DiffIsExact(p: Entry, derived: seq<Entry>)
    ensures IsDiff(DiffOf(p, derived), p, derived)
  {
    var fragments := Applicable(derived, p.resource);
    forall x
      ensures GrantsAction(fragments, x) <==> SomeGrants(derived, p.resource, x)
      ensures GrantsVendor(fragments, x) <==> SomeGrantsTo(derived, p.resource, x)
    {
      GrantedIsListed(derived, p.resource, x);
    }
    var actionsAt := DroppedAt(p.actions, a => GrantsAction(fragments, a));
    var vendorsAt := DroppedAt(p.vendors, v => GrantsVendor(fragments, v));
    TightenedIsExact(p, derived);
  }

  /** The inner loop: each applicable fragment in turn, its cap's key remembered. */
  method TightenedCaps(p: Entry, fragments: seq<Entry>) returns (tightened: seq<Tightening>)
    ensures tightened == Tightenings(CapsOf(fragments, p), p)
  {
    tightened := [];
    var seenCaps: set<string> := {};
    ghost var caps: seq<Amount> := [];
    for n := 0 to |fragments|
      invariant caps == CapsOf(fragments[..n], p)
      invariant tightened == Tightenings(caps, p)
      invariant forall key :: key in seenCaps <==> Seen(caps, key)
    {
      var d := fragments[n];
      assert fragments[..n + 1][..n] == fragments[..n];
      if !SharesAnAction(d, p) || d.cap.None? || d.cap == p.cap {
        continue;
      }
      var key := CapKey(d.cap.value);
      if key in seenCaps {
        continue;
      }
      seenCaps := seenCaps + {key};
      tightened := tightened + [Tightening("max_amount", CapText(p.cap), CapText(d.cap))];
      SeenNext(caps, d.cap.value);
      caps := caps + [d.cap.value];
    }
    assert fragments[..|fragments|] == fragments;
  }

  method ProposalDiff(proposed: seq<Entry>, derived: seq<Entry>) returns (diffs: seq<Diff>)
    ensures |diffs| == |proposed| && forall i :: 0 <= i < |proposed| ==> diffs[i] == DiffOf(proposed[i], derived)
    ensures forall i :: 0 <= i < |proposed| ==> IsDiff(diffs[i], proposed[i], derived)
  {
    diffs := [];
    for i := 0 to |proposed|
      invariant |diffs| == i && forall k :: 0 <= k < i ==> diffs[k] == DiffOf(proposed[k], derived)
    {
      var p := proposed[i];
      var fragments := Applicable(derived, p.resource);
      var tightened := TightenedCaps(p, fragments);
      diffs := diffs + [Diff(p.resource, Dropped(p.actions, a => GrantsAction(fragments, a)),
                             Dropped(p.vendors, v => GrantsVendor(fragments, v)), tightened)];
    }
    forall i | 0 <= i < |proposed|
      ensures IsDiff(diffs[i], proposed[i], derived)
    {
      DiffIsExact(proposed[i], derived);
    }
  }

  lemma SeenNext(caps: seq<Amount>, cap: Amount)
    ensures forall key :: Seen(caps + [cap], key) <==> Seen(caps, key) || key == CapKey(cap)
  {
    forall key
      ensures Seen(caps + [cap], key) <==> Seen(caps, key) || key == CapKey(cap)
    {
      if Seen(caps, key) {
        var i :| 0 <= i < |caps| && CapKey(caps[i]) == key;
        assert (caps + [cap])[i] == caps[i];
      }
      assert (caps + [cap])[|caps|] == cap;
    }
  }

  // ---- What is reported ----

  ghost predicate KeysDiffer(caps: seq<Amount>) {
    forall i, j :: 0 <= i < j < |caps| ==> CapKey(caps[i]) != CapKey(caps[j])
  }

  ghost predicate SomeFragmentHas(fragments: seq<Entry>, p: Entry, cap: Amount) {
    exists i :: 0 <= i < |fragments| && Tightens(fragments[i], p) && fragments[i].cap == Some(cap)
  }

  lemma SomeFragmentHasNext(fragments: seq<Entry>, d: Entry, p: Entry, cap: Amount)
    ensures SomeFragmentHas(fragments + [d], p, cap) <==>
            SomeFragmentHas(fragments, p, cap) || (Tightens(d, p) && d.cap == Some(cap))
  {
    if SomeFragmentHas(fragments, p, cap) {
      var i :| 0 <= i < |fragments| && Tightens(fragments[i], p) && fragments[i].cap == Some(cap);
      assert (fragments + [d])[i] == fragments[i];
    }
    assert (fragments + [d])[|fragments|] == d;
  }

  /**
   * The caps reported are caps of fragments that tighten `p`, no two under one
   * key, none the cap proposed; and every such fragment's cap is reported, or
   * another under its key.
   */
  lemma {:induction false} ReportedExactly(fragments: seq<Entry>, p: Entry)
    ensures KeysDiffer(CapsOf(fragments, p))
    ensures forall cap :: cap in CapsOf(fragments, p) ==> SomeFragmentHas(fragments, p, cap) && Some(cap) != p.cap
    ensures forall cap :: SomeFragmentHas(fragments, p, cap) ==> Seen(CapsOf(fragments, p), CapKey(cap))
  {
    if fragments != [] {
      var n := |fragments| - 1;
      var caps, d := CapsOf(fragments[..n], p), fragments[n];
      ReportedExactly(fragments[..n], p);
      assert fragments == fragments[..n] + [d];
      forall cap
        ensures SomeFragmentHas(fragments, p, cap) <==>
                SomeFragmentHas(fragments[..n], p, cap) || (Tightens(d, p) && d.cap == Some(cap))
      {
        SomeFragmentHasNext(fragments[..n], d, p, cap);
      }
      if Tightens(d, p) {
        SeenNext(caps, d.cap.value);
      }
    }
  }

  /** Fragments that tighten `p` under one key have one cap: what the key's `|` separator is relied on for. */
  ghost predicate KeysTellApart(fragments: seq<Entry>, p: Entry) {
    forall i, j ::
      (&& 0 <= i < |fragments| && 0 <= j < |fragments| && Tightens(fragments[i], p) && Tightens(fragments[j], p)
       && CapKey(fragments[i].cap.value) == CapKey(fragments[j].cap.value))
      ==> fragments[i].cap == fragments[j].cap
  }

  /** Every cap that tightens `p` is reported, exactly when their keys tell them apart. */
  lemma AllReportedExactlyWhen(fragments: seq<Entry>, p: Entry)
    ensures (forall cap :: SomeFragmentHas(fragments, p, cap) ==> cap in CapsOf(fragments, p)) <==>
            KeysTellApart(fragments, p)
  {
    var caps := CapsOf(fragments, p);
    ReportedExactly(fragments, p);
    if KeysTellApart(fragments, p) {
      forall cap | SomeFragmentHas(fragments, p, cap)
        ensures cap in caps
      {
        var k :| 0 <= k < |caps| && CapKey(caps[k]) == CapKey(cap);
        assert caps[k] in caps && SomeFragmentHas(fragments, p, caps[k]);
      }
    }
    if forall cap :: SomeFragmentHas(fragments, p, cap) ==> cap in caps {
      forall i, j | 0 <= i < |fragments| && 0 <= j < |fragments| && Tightens(fragments[i], p) &&
          Tightens(fragments[j], p)
                    && CapKey(fragments[i].cap.value) == CapKey(fragments[j].cap.value)
        ensures fragments[i].cap == fragments[j].cap
      {
        assert SomeFragmentHas(fragments, p, fragments[i].cap.value) &&
               SomeFragmentHas(fragments, p, fragments[j].cap.value);
      }
    }
  }

  // ---- Permutations ----

  lemma ApplicableSame(derived: seq<Entry>, derived': seq<Entry>, resource: string)
    requires forall d :: d in derived <==> d in derived'
    ensures forall d :: d in Applicable(derived, resource) <==> d in Applicable(derived', resource)
  {
  }

  lemma SameGrants(f: seq<Entry>, f': seq<Entry>)
    requires forall d :: d in f <==> d in f'
    ensures forall a :: GrantsAction(f, a) <==> GrantsAction(f', a)
    ensures forall v :: GrantsVendor(f, v) <==> GrantsVendor(f', v)
  {
    GrantsCarryOver(f, f');
    GrantsCarryOver(f', f);
  }

  lemma GrantsCarryOver(f: seq<Entry>, f': seq<Entry>)
    requires forall d :: d in f ==> d in f'
    ensures forall a :: GrantsAction(f, a) ==> GrantsAction(f', a)
    ensures forall v :: GrantsVendor(f, v) ==> GrantsVendor(f', v)
    ensures forall p, cap :: SomeFragmentHas(f, p, cap) ==> SomeFragmentHas(f', p, cap)
  {
    forall i | 0 <= i < |f|
      ensures exists j :: 0 <= j < |f'| && f'[j] == f[i]
    {
      assert f[i] in f';
    }
  }

  lemma {:induction false} DroppedSame(wanted: seq<string>, granted: string -> bool, granted': string -> bool)
    requires forall x :: granted(x) == granted'(x)
    ensures Dropped(wanted, granted) == Dropped(wanted, granted')
  {
    if wanted != [] {
      DroppedSame(wanted[..|wanted| - 1], granted, granted');
    }
  }

  /**
   * The same fragments in any order: the dropped actions and vendors are the
   * same, and so are the keys of the caps reported, hence the caps themselves
   * where the keys tell them apart.
   */
  lemma OrderIsImmaterial(p: Entry, derived: seq<Entry>, derived': seq<Entry>)
    requires forall d :: d in derived <==> d in derived'
    ensures DiffOf(p, derived).actionsDropped == DiffOf(p, derived').actionsDropped
    ensures DiffOf(p, derived).vendorsDropped == DiffOf(p, derived').vendorsDropped
    ensures var caps, caps' := CapsOf(Applicable(derived, p.resource), p), CapsOf(Applicable(derived', p.resource), p);
            && (forall key :: Seen(caps, key) <==> Seen(caps', key))
            && (KeysTellApart(Applicable(derived, p.resource), p) ==> forall cap :: cap in caps <==> cap in caps')
  {
    var f, f' := Applicable(derived, p.resource), Applicable(derived', p.resource);
    ApplicableSame(derived, derived', p.resource);
    SameGrants(f, f');
    DroppedSame(p.actions, a => GrantsAction(f, a), a => GrantsAction(f', a));
    DroppedSame(p.vendors, v => GrantsVendor(f, v), v => GrantsVendor(f', v));
    KeysCarryOver(f, f', p);
    KeysCarryOver(f', f, p);
    if KeysTellApart(f, p) {
      SameCaps(f, f', p);
    }
  }

  lemma SameCaps(f: seq<Entry>, f': seq<Entry>, p: Entry)
    requires (forall d :: d in f <==> d in f') && KeysTellApart(f, p)
    ensures forall cap :: cap in CapsOf(f, p) <==> cap in CapsOf(f', p)
  {
    TellApartCarriesOver(f, f', p);
    CapsCarryOver(f, f', p);
    CapsCarryOver(f', f, p);
  }

  lemma KeysCarryOver(f: seq<Entry>, f': seq<Entry>, p: Entry)
    requires forall d :: d in f ==> d in f'
    ensures forall key :: Seen(CapsOf(f, p), key) ==> Seen(CapsOf(f', p), key)
  {
    ReportedExactly(f, p);
    ReportedExactly(f', p);
    GrantsCarryOver(f, f');
    var caps := CapsOf(f, p);
    forall key | Seen(caps, key)
      ensures Seen(CapsOf(f', p), key)
    {
      var i :| 0 <= i < |caps| && CapKey(caps[i]) == key;
      assert caps[i] in caps && SomeFragmentHas(f', p, caps[i]);
    }
  }

  lemma TellApartCarriesOver(f: seq<Entry>, f': seq<Entry>, p: Entry)
    requires (forall d :: d in f' ==> d in f) && KeysTellApart(f, p)
    ensures KeysTellApart(f', p)
  {
    forall i | 0 <= i < |f'|
      ensures exists j :: 0 <= j < |f| && f[j] == f'[i]
    {
      assert f'[i] in f;
    }
  }

  lemma CapsCarryOver(f: seq<Entry>, f': seq<Entry>, p: Entry)
    requires (forall d :: d in f ==> d in f') && KeysTellApart(f', p)
    ensures forall cap :: cap in CapsOf(f, p) ==> cap in CapsOf(f', p)
  {
    ReportedExactly(f, p);
    GrantsCarryOver(f, f');
    AllReportedExactlyWhen(f', p);
  }

  // ---- Validated entries ----

  predicate AllDigits(s: string) {
    forall i :: 0 <= i < |s| ==> '0' <= s[i] <= '9'
  }

  /** A decimal: one or more digits, and perhaps a point and one to eighteen more. */
  predicate IsAmount(s: string) {
    exists n :: 0 < n <= |s| && AllDigits(s[..n]) &&
        (n == |s| || (s[n] == '.' && 1 <= |s| - n - 1 <= 18 && AllDigits(s[n + 1..])))
  }

  /** Three upper-case letters. */
  predicate IsCurrency(s: string) {
    |s| == 3 && forall i :: 0 <= i < 3 ==> 'A' <= s[i] <= 'Z'
  }

  /** A cap as every intake of an Authority Set entry lets it through. */
  predicate IsValidCap(cap: Amount) {
    IsAmount(cap.amount) && IsCurrency(cap.currency)
  }

  predicate IsValid(e: Entry) {
    e.cap.Some? ==> IsValidCap(e.cap.value)
  }

  predicate AllValid(entries: seq<Entry>) {
    forall e :: e in entries ==> IsValid(e)
  }

  /** A valid cap's key names it, and so does the text it is reported as. */
  lemma {:induction false} KeyNamesCap(a: Amount, b: Amount)
    requires IsValidCap(a) && IsValidCap(b)
    ensures CapKey(a) == CapKey(b) <==> a == b
    ensures CapText(Some(a)) == CapText(Some(b)) <==> a == b
    ensures CapText(Some(a)) != CapText(None)
  {
    if CapKey(a) == CapKey(b) {
      LastThree(a.amount + "|", a.currency, b.amount + "|", b.currency);
      assert a.amount == (a.amount + "|")[..|a.amount|] && b.amount == (b.amount + "|")[..|b.amount|];
    }
    if CapText(Some(a)) == CapText(Some(b)) {
      LastThree(a.amount + " ", a.currency, b.amount + " ", b.currency);
      assert a.amount == (a.amount + " ")[..|a.amount|] && b.amount == (b.amount + " ")[..|b.amount|];
    }
    StartsWithADigit(a);
    assert "unbounded"[0] == 'u';
  }

  lemma {:induction false} LastThree(a: string, x: string, b: string, y: string)
    requires |x| == |y| == 3 && a + x == b + y
    ensures a == b && x == y
  {
    assert a == (a + x)[..|a|] && b == (b + y)[..|b|];
    assert x == (a + x)[|a|..] && y == (b + y)[|b|..];
  }

  lemma {:induction false} StartsWithADigit(a: Amount)
    requires IsValidCap(a)
    ensures '0' <= CapText(Some(a))[0] <= '9'
  {
    var n :| 0 < n <= |a.amount| && AllDigits(a.amount[..n]);
    assert CapText(Some(a))[0] == a.amount[0] == a.amount[..n][0];
  }

  /**
   * Of validated fragments every tightening cap is reported, once, in a text
   * of its own, and never as the cap proposed.
   */
  lemma {:induction false} EachCapReportedOnce(fragments: seq<Entry>, p: Entry)
    requires AllValid(fragments) && IsValid(p)
    ensures var caps := CapsOf(fragments, p);
            && Distinct(caps)
            && (forall cap :: cap in caps <==> SomeFragmentHas(fragments, p, cap))
            && (forall cap :: cap in caps ==> Some(cap) != p.cap)
    ensures var t := Tightenings(CapsOf(fragments, p), p);
            && (forall i, j :: 0 <= i < j < |t| ==> t[i].granted != t[j].granted)
            && (forall i :: 0 <= i < |t| ==> t[i].granted != t[i].proposed)
  {
    var caps := CapsOf(fragments, p);
    ReportedExactly(fragments, p);
    ValidKeysTellApart(fragments, p);
    AllReportedExactlyWhen(fragments, p);
    forall i | 0 <= i < |caps|
      ensures IsValidCap(caps[i]) && Some(caps[i]) != p.cap
      ensures CapText(Some(caps[i])) != CapText(p.cap)
    {
      assert caps[i] in caps;
      var k :| 0 <= k < |fragments| && Tightens(fragments[k], p) && fragments[k].cap == Some(caps[i]);
      assert fragments[k] in fragments && IsValid(fragments[k]);
      if p.cap.Some? {
        KeyNamesCap(caps[i], p.cap.value);
      } else {
        KeyNamesCap(caps[i], caps[i]);
      }
    }
    forall i, j | 0 <= i < j < |caps|
      ensures caps[i] != caps[j] && CapText(Some(caps[i])) != CapText(Some(caps[j]))
    {
      KeyNamesCap(caps[i], caps[j]);
    }
  }

  lemma {:induction false} ValidKeysTellApart(fragments: seq<Entry>, p: Entry)
    requires AllValid(fragments)
    ensures KeysTellApart(fragments, p)
  {
    forall i, j | 0 <= i < |fragments| && 0 <= j < |fragments| && Tightens(fragments[i], p) && Tightens(fragments[j], p)
      ensures CapKey(fragments[i].cap.value) == CapKey(fragments[j].cap.value) ==> fragments[i].cap == fragments[j].cap
    {
      assert IsValid(fragments[i]) && IsValid(fragments[j]);
      KeyNamesCap(fragments[i].cap.value, fragments[j].cap.value);
    }
  }

  /** Validated fragments in any order drop the same actions and vendors and report the same caps, as a set. */
  lemma {:induction false} ValidatedOrderIsImmaterial(p: Entry, derived: seq<Entry>, derived': seq<Entry>)
    requires AllValid(derived) && forall d :: d in derived <==> d in derived'
    ensures DiffOf(p, derived).actionsDropped == DiffOf(p, derived').actionsDropped
    ensures DiffOf(p, derived).vendorsDropped == DiffOf(p, derived').vendorsDropped
    ensures forall t :: t in DiffOf(p, derived).tightened <==> t in DiffOf(p, derived').tightened
  {
    var f, f' := Applicable(derived, p.resource), Applicable(derived', p.resource);
    ValidKeysTellApart(f, p);
    OrderIsImmaterial(p, derived, derived');
    ApplicableSame(derived, derived', p.resource);
    SameCaps(f, f', p);
    SameTightenings(CapsOf(f, p), CapsOf(f', p), p);
    SameTightenings(CapsOf(f', p), CapsOf(f, p), p);
  }

  lemma {:induction false} SameTightenings(caps: seq<Amount>, caps': seq<Amount>, p: Entry)
    requires forall cap :: cap in caps ==> cap in caps'
    ensures forall t :: t in Tightenings(caps, p) ==> t in Tightenings(caps', p)
  {
    forall i | 0 <= i < |caps|
      ensures Tightenings(caps, p)[i] in Tightenings(caps', p)
    {
      assert caps[i] in caps;
      var j :| 0 <= j < |caps'| && caps'[j] == caps[i];
      assert Tightenings(caps', p)[j] == Tightenings(caps, p)[i];
    }
  }

  // ---- Splitting a fragment ----

  lemma {:induction false} ApplicableOfBoth(a: seq<Entry>, b: seq<Entry>, resource: string)
    ensures Applicable(a + b, resource) == Applicable(a, resource) + Applicable(b, resource)
  {
    if b == [] {
      assert a + b == a;
    } else {
      var front, d := b[..|b| - 1], b[|b| - 1];
      assert a + b == a + front + [d] && b == front + [d];
      ApplicableOfBoth(a, front, resource);
      ApplicableNext(a + front, d, resource);
      ApplicableNext(front, d, resource);
    }
  }

  lemma {:induction false} CapsOfBoth(a: seq<Entry>, a': seq<Entry>, b: seq<Entry>, p: Entry)
    requires CapsOf(a, p) == CapsOf(a', p)
    ensures CapsOf(a + b, p) == CapsOf(a' + b, p)
  {
    if b == [] {
      assert a + b == a && a' + b == a';
    } else {
      assert (a + b)[..|a + b| - 1] == a + b[..|b| - 1];
      assert (a' + b)[..|a' + b| - 1] == a' + b[..|b| - 1];
      CapsOfBoth(a, a', b[..|b| - 1], p);
    }
  }

  /** `g` and `h` are `d` in two: they cover its actions between them, and each keeps its resource and constraints. */
  ghost predicate Splits(d: Entry, g: Entry, h: Entry) {
    && g.resource == h.resource == d.resource && g.cap == h.cap == d.cap && g.vendors == h.vendors == d.vendors
    && forall a :: a in d.actions <==> a in g.actions || a in h.actions
  }

  lemma CapsOfSplit(a: seq<Entry>, d: Entry, g: Entry, h: Entry, p: Entry)
    requires Splits(d, g, h)
    ensures CapsOf(a + [d], p) == CapsOf(a + [g, h], p)
  {
    assert (a + [d])[..|a|] == a;
    assert (a + [g, h])[..|a| + 1] == a + [g];
    assert (a + [g])[..|a|] == a;
    var caps := CapsOf(a, p);
    assert SharesAnAction(d, p) <==> SharesAnAction(g, p) || SharesAnAction(h, p);
    if Tightens(g, p) {
      SeenNext(caps, d.cap.value);
    }
  }

  lemma GrantsOfSplit(a: seq<Entry>, d: Entry, g: Entry, h: Entry, b: seq<Entry>)
    requires Splits(d, g, h)
    ensures forall x :: GrantsAction(a + [d] + b, x) <==> GrantsAction(a + [g, h] + b, x)
    ensures forall x :: GrantsVendor(a + [d] + b, x) <==> GrantsVendor(a + [g, h] + b, x)
  {
    var whole, split := a + [d] + b, a + [g, h] + b;
    assert forall i :: 0 <= i < |a| ==> whole[i] == split[i];
    assert whole[|a|] == d && split[|a|] == g && split[|a| + 1] == h;
    assert forall i :: |a| < i < |whole| ==> whole[i] == split[i + 1];
    assert forall i :: |a| + 1 < i < |split| ==> split[i] == whole[i - 1];
  }

  lemma SplitOver(p: Entry, before: seq<Entry>, d: Entry, g: Entry, h: Entry, after: seq<Entry>)
    requires Splits(d, g, h)
    ensures DiffOver(p, before + [d] + after) == DiffOver(p, before + [g, h] + after)
  {
    var f, f' := before + [d] + after, before + [g, h] + after;
    GrantsOfSplit(before, d, g, h, after);
    DroppedSame(p.actions, x => GrantsAction(f, x), x => GrantsAction(f', x));
    DroppedSame(p.vendors, x => GrantsVendor(f, x), x => GrantsVendor(f', x));
    CapsOfSplit(before, d, g, h, p);
    CapsOfBoth(before + [d], before + [g, h], after, p);
  }

  lemma ApplicableAround(a: seq<Entry>, m: seq<Entry>, b: seq<Entry>, r: string)
    ensures Applicable(a + m + b, r) == Applicable(a, r) + Applicable(m, r) + Applicable(b, r)
  {
    ApplicableOfBoth(a + m, b, r);
    ApplicableOfBoth(a, m, r);
  }

  lemma ApplicableOne(d: Entry, g: Entry, h: Entry, r: string)
    ensures Applicable([d], r) == if d.resource == r then [d] else []
    ensures g.resource == h.resource ==> Applicable([g, h], r) == if g.resource == r then [g, h] else []
  {
    assert [d][..0] == [] && [g, h][..1] == [g] && [g][..0] == [];
  }

  /** Splitting a fragment in place leaves every entry's whole diff as it was. */
  lemma SplittingIsImmaterial(p: Entry, a: seq<Entry>, d: Entry, g: Entry, h: Entry, b: seq<Entry>)
    requires Splits(d, g, h)
    ensures DiffOf(p, a + [d] + b) == DiffOf(p, a + [g, h] + b)
  {
    var r := p.resource;
    ApplicableAround(a, [d], b, r);
    ApplicableAround(a, [g, h], b, r);
    ApplicableOne(d, g, h, r);
    if d.resource == r {
      SplitOver(p, Applicable(a, r), d, g, h, Applicable(b, r));
    }
  }
}
