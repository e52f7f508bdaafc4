/** Durable evidence signing keys: one file per holder, created once by whichever initializer links it first. */
module EvidenceKeyFiles {
  import opened Wrappers
  import opened Json

  const FORMAT := "mission-evidence-keys/1"

  datatype Holder = Pep | Pdp

  datatype RoleKey = RoleKey(role: string, kid: string)

  function HolderName(h: Holder): string {
    if h.Pep? then "pep" else "pdp"
  }

  /** Each holder's roles, under their declared key identifiers. */
  function RolesOf(h: Holder): seq<RoleKey> {
    match h
    case Pep => [RoleKey("pep", "ephemeral-pep"), RoleKey("executor", "ephemeral-executor"),
                 RoleKey("receipt_issuer", "ephemeral-receipt_issuer")]
    case Pdp => [RoleKey("pdp", "pdp-decision-evidence")]
  }

  // ---- What an initializer writes, and what a loader accepts ----

  datatype LoadedKey = LoadedKey(role: string, kid: string, jwk: Json)

  datatype LoadFault = Missing | OpenToOthers | NotJson | NullRead | OtherFormat | OtherHolder | OtherCount
    | NoKey(role: string) | BadKey(role: string)

  function EntryOf(r: RoleKey, jwk: Json): Json {
    Obj([("role", Str(r.role)), ("kid", Str(r.kid)), ("alg", Str("ES256")), ("private_jwk", jwk)])
  }

  /** One entry per role, in role order. */
  function EntriesOf(roles: seq<RoleKey>, jwks: seq<Json>): (entries: seq<Json>)
    requires |roles| == |jwks|
  {
    seq(|roles|, i requires 0 <= i < |roles| => EntryOf(roles[i], jwks[i]))
  }

  function FileOf(h: Holder, jwks: seq<Json>): Json
    requires |jwks| == |RolesOf(h)|
  {
    Obj([("format", Str(FORMAT)), ("holder", Str(HolderName(h))), ("keys", Arr(EntriesOf(RolesOf(h), jwks)))])
  }

  /** The first entry stored under `role`; a null entry met before it is an error. */
  function FindEntry(stored: seq<Json>, role: string): Result<Option<Json>, LoadFault> {
    if stored == [] then Ok(None)
    else if stored[0].Null? then Err(NullRead)
    else if Stated(stored[0], "role") == Str(role) then Ok(Some(stored[0]))
    else FindEntry(stored[1..], role)
  }

  predicate IsKeyEntry(entry: Json, kid: string) {
    && Stated(entry, "kid") == Str(kid) && Stated(entry, "alg") == Str("ES256")
    && (Stated(entry, "private_jwk").Obj? || Stated(entry, "private_jwk").Arr?)
  }

  /**
   * The stored keys in the expected roles' order; `imports` says which key objects the platform takes as private keys.
   */
  function LoadKeys(stored: seq<Json>, expected: seq<RoleKey>,
                    imports: Json -> bool): Result<seq<LoadedKey>, LoadFault> {
    if expected == [] then Ok([])
    else
      var entry :- FindEntry(stored, expected[0].role);
      var key :- LoadKey(entry, expected[0], imports);
      var rest :- LoadKeys(stored, expected[1..], imports);
      Ok([key] + rest)
  }

  function LoadKey(entry: Option<Json>, r: RoleKey, imports: Json -> bool): Result<LoadedKey, LoadFault> {
    if entry.None? || !IsKeyEntry(entry.value, r.kid) then Err(NoKey(r.role))
    else if !imports(Stated(entry.value, "private_jwk")) then Err(BadKey(r.role))
    else Ok(LoadedKey(r.role, r.kid, Stated(entry.value, "private_jwk")))
  }

  function LoadStored(keys: Json, expected: seq<RoleKey>, imports: Json -> bool): Result<seq<LoadedKey>, LoadFault> {
    var stored := if keys.Arr? then keys.items else [];
    if |stored| != |expected| then Err(OtherCount) else LoadKeys(stored, expected, imports)
  }

  function LoadParsed(parsed: Json, h: Holder, imports: Json -> bool): Result<seq<LoadedKey>, LoadFault> {
    if parsed.Null? then Err(NullRead)
    else if Stated(parsed, "format") != Str(FORMAT) then Err(OtherFormat)
    else if Stated(parsed, "holder") != Str(HolderName(h)) then Err(OtherHolder)
    else LoadStored(Stated(parsed, "keys"), RolesOf(h), imports)
  }

  // ---- Which keys a file holds ----

  /** The first entry stored under the role, with no null entry before it. */
  ghost predicate FirstUnder(stored: seq<Json>, role: string, k: nat) {
    && k < |stored| && stored[k] != Null && Stated(stored[k], "role") == Str(role)
    && forall j :: 0 <= j < k ==> stored[j] != Null && Stated(stored[j], "role") != Str(role)
  }

  /** An ES256 key object under the `kid`. */
  ghost predicate StatesKey(entry: Json, kid: string, jwk: Json) {
    && Stated(entry, "kid") == Str(kid) && Stated(entry, "alg") == Str("ES256")
    && Stated(entry, "private_jwk") == jwk && (jwk.Obj? || jwk.Arr?)
  }

  /** The role's key, as its first entry states it, which the platform imports. */
  ghost predicate HoldsKey(stored: seq<Json>, r: RoleKey, imports: Json -> bool, key: LoadedKey) {
    && key.role == r.role && key.kid == r.kid && imports(key.jwk)
    && exists k: nat :: FirstUnder(stored, r.role, k) && StatesKey(stored[k], r.kid, key.jwk)
  }

  ghost predicate HoldsKeys(stored: seq<Json>, roles: seq<RoleKey>, imports: Json -> bool, keys: seq<LoadedKey>) {
    |keys| == |roles| && forall i :: 0 <= i < |roles| ==> HoldsKey(stored, roles[i], imports, keys[i])
  }

  /** The file's value is that holder's, in this format, and holds exactly its keys. */
  ghost predicate StatesKeys(v: Json, h: Holder, imports: Json -> bool, keys: seq<LoadedKey>) {
    && Stated(v, "format") == Str("mission-evidence-keys/1")
    && Stated(v, "holder") == Str(if h.Pep? then "pep" else "pdp")
    && Stated(v, "keys").Arr? && |Stated(v, "keys").items| == |RolesOf(h)|
    && HoldsKeys(Stated(v, "keys").items, RolesOf(h), imports, keys)
  }

  lemma {:induction false} FoundExactly(stored: seq<Json>, role: string)
    ensures var entry := FindEntry(stored, role);
            && (entry.Ok? && entry.value.Some? ==>
                  exists k: nat :: FirstUnder(stored, role, k) && stored[k] == entry.value.value)
            && (forall k: nat :: FirstUnder(stored, role, k) ==> entry == Ok(Some(stored[k])))
  {
    if stored != [] {
      FoundExactly(stored[1..], role);
      var entry := FindEntry(stored[1..], role);
      if stored[0] == Null || Stated(stored[0], "role") == Str(role) {
        assert forall k: nat :: FirstUnder(stored, role, k) ==> k == 0;
        assert stored[0] != Null ==> FirstUnder(stored, role, 0);
      } else {
        forall k: nat
          ensures FirstUnder(stored[1..], role, k) <==> FirstUnder(stored, role, k + 1)
        {
          assert forall j :: 0 <= j < |stored| - 1 ==> stored[1..][j] == stored[j + 1];
        }
        forall k: nat | FirstUnder(stored, role, k)
          ensures entry == Ok(Some(stored[k]))
        {
          assert k > 0 && FirstUnder(stored[1..], role, k - 1);
        }
      }
    }
  }

  lemma {:induction false} KeyExactly(stored: seq<Json>, r: RoleKey, imports: Json -> bool, key: LoadedKey)
    ensures (var entry := FindEntry(stored, r.role); entry.Ok? && LoadKey(entry.value, r, imports) == Ok(key)) <==>
            HoldsKey(stored, r, imports, key)
  {
    FoundExactly(stored, r.role);
  }

  lemma {:induction false} KeysExactly(stored: seq<Json>, expected: seq<RoleKey>, imports: Json -> bool,
                                       keys: seq<LoadedKey>)
    ensures LoadKeys(stored, expected, imports) == Ok(keys) <==> HoldsKeys(stored, expected, imports, keys)
  {
    if expected != [] && keys != [] {
      KeyExactly(stored, expected[0], imports, keys[0]);
      KeysExactly(stored, expected[1..], imports, keys[1..]);
      assert keys == [keys[0]] + keys[1..];
      OneMoreKey(stored, expected, imports, keys);
    }
  }

  lemma {:induction false} OneMoreKey(stored: seq<Json>, expected: seq<RoleKey>, imports: Json -> bool,
                                      keys: seq<LoadedKey>)
    requires expected != [] && keys != []
    ensures HoldsKeys(stored, expected, imports, keys) <==>
            HoldsKey(stored, expected[0], imports, keys[0]) && HoldsKeys(stored, expected[1..], imports, keys[1..])
  {
    assert forall i :: 0 <= i < |expected| - 1 ==> expected[1..][i] == expected[i + 1];
    assert forall i :: 0 <= i < |keys| - 1 ==> keys[1..][i] == keys[i + 1];
    if HoldsKey(stored, expected[0], imports, keys[0]) && HoldsKeys(stored, expected[1..], imports, keys[1..]) {
      forall i | 0 <= i < |expected|
        ensures HoldsKey(stored, expected[i], imports, keys[i])
      {
        assert i > 0 ==> HoldsKey(stored, expected[1..][i - 1], imports, keys[1..][i - 1]);
      }
    }
  }

  ghost predicate DistinctRoles(roles: seq<RoleKey>) {
    forall i, j :: 0 <= i < j < |roles| ==> roles[i].role != roles[j].role
  }

  lemma RolesAreDistinct(h: Holder)
    ensures DistinctRoles(RolesOf(h))
  {
    if h.Pep? {
      assert |"pep"| == 3 && |"executor"| == 8 && |"receipt_issuer"| == 14;
    }
  }

  lemma EntryReads(r: RoleKey, jwk: Json)
    ensures Stated(EntryOf(r, jwk), "role") == Str(r.role) && Stated(EntryOf(r, jwk), "kid") == Str(r.kid)
    ensures Stated(EntryOf(r, jwk), "alg") == Str("ES256") && Stated(EntryOf(r, jwk), "private_jwk") == jwk
  {
    var members := EntryOf(r, jwk).members;
    OwnValueAt(members, 0);
    OwnValueAt(members, 1);
    OwnValueAt(members, 2);
    OwnValueAt(members, 3);
  }

  lemma FileReads(h: Holder, jwks: seq<Json>)
    requires |jwks| == |RolesOf(h)|
    ensures var f := FileOf(h, jwks);
            && Stated(f, "format") == Str(FORMAT) && Stated(f, "holder") == Str(HolderName(h))
            && Stated(f, "keys") == Arr(EntriesOf(RolesOf(h), jwks))
  {
    var members := FileOf(h, jwks).members;
    OwnValueAt(members, 0);
    OwnValueAt(members, 1);
    OwnValueAt(members, 2);
  }

  /** The keys an initializer generated, in role order. */
  function KeysOf(roles: seq<RoleKey>, jwks: seq<Json>): (keys: seq<LoadedKey>)
    requires |roles| == |jwks|
    ensures |keys| == |roles| && forall i :: 0 <= i < |roles| ==>
            keys[i] == LoadedKey(roles[i].role, roles[i].kid, jwks[i])
  {
    seq(|roles|, i requires 0 <= i < |roles| => LoadedKey(roles[i].role, roles[i].kid, jwks[i]))
  }

  lemma OwnKeyHeld(roles: seq<RoleKey>, jwks: seq<Json>, imports: Json -> bool, i: nat)
    requires |roles| == |jwks| && DistinctRoles(roles) && i < |roles| && jwks[i].Obj? && imports(jwks[i])
    ensures HoldsKey(EntriesOf(roles, jwks), roles[i], imports, KeysOf(roles, jwks)[i])
  {
    var stored := EntriesOf(roles, jwks);
    forall j | 0 <= j <= i
      ensures stored[j] != Null && Stated(stored[j], "role") == Str(roles[j].role)
    {
      EntryReads(roles[j], jwks[j]);
    }
    EntryReads(roles[i], jwks[i]);
    assert FirstUnder(stored, roles[i].role, i) && StatesKey(stored[i], roles[i].kid, jwks[i]);
  }

  lemma LoadsStored(roles: seq<RoleKey>, jwks: seq<Json>, imports: Json -> bool)
    requires |roles| == |jwks| && DistinctRoles(roles)
    requires forall i :: 0 <= i < |jwks| ==> jwks[i].Obj? && imports(jwks[i])
    ensures LoadStored(Arr(EntriesOf(roles, jwks)), roles, imports) == Ok(KeysOf(roles, jwks))
  {
    forall i | 0 <= i < |roles|
      ensures HoldsKey(EntriesOf(roles, jwks), roles[i], imports, KeysOf(roles, jwks)[i])
    {
      OwnKeyHeld(roles, jwks, imports, i);
    }
    KeysExactly(EntriesOf(roles, jwks), roles, imports, KeysOf(roles, jwks));
  }

  lemma HoldersDiffer(h: Holder, other: Holder)
    ensures HolderName(h) == HolderName(other) <==> h == other
  {
    assert "pep"[1] != "pdp"[1];
  }

  /** Loading what an initializer wrote gives its keys in role order; for the other holder it is refused. */
  lemma LoadsWhatWasWritten(h: Holder, other: Holder, jwks: seq<Json>, imports: Json -> bool)
    requires |jwks| == |RolesOf(h)|
    requires forall i :: 0 <= i < |jwks| ==> jwks[i].Obj? && imports(jwks[i])
    ensures LoadParsed(FileOf(h, jwks), other, imports) ==
            if other == h then Ok(KeysOf(RolesOf(h), jwks)) else Err(OtherHolder)
  {
    FileReads(h, jwks);
    HoldersDiffer(h, other);
    RolesAreDistinct(h);
    LoadsStored(RolesOf(h), jwks, imports);
  }

  // ---- The directory the file lives in ----

  /** What a file holds: a text cut short before its JSON value ends, or one that holds the value whole. */
  datatype FileText = Partial | Whole(json: Json)
  datatype Inode = Inode(text: FileText, openToOthers: bool)
  datatype Files = Files(names: map<string, nat>, inodes: seq<Inode>)

  ghost predicate FilesOk(f: Files) {
    forall name :: name in f.names ==> f.names[name] < |f.inodes|
  }

  /** `openSync(name, "wx", 0o600)`: a new empty file, or a refusal where the name is taken. */
  function OpenNew(f: Files, name: string): Option<Files> {
    if name in f.names then None else Some(Files(f.names[name := |f.inodes|], f.inodes + [Inode(Partial, false)]))
  }

  /** What the file holds after a write that took all of the text, or only some of it. */
  function TextWritten(json: Json, took: bool): FileText {
    if took then Whole(json) else Partial
  }

  /** `writeSync`, which may take less than it is given; the source does not look at how much it took. */
  function WriteText(f: Files, inode: nat, text: FileText): Files
    requires inode < |f.inodes|
  {
    f.(inodes := f.inodes[inode := f.inodes[inode].(text := text)])
  }

  /** `linkSync`: a second name for the same file, refused where that name exists. */
  function Link(f: Files, from: string, to: string): Option<Files> {
    if to in f.names || from !in f.names then None else Some(f.(names := f.names[to := f.names[from]]))
  }

  function Unlink(f: Files, name: string): Files {
    f.(names := f.names - {name})
  }

  function Load(f: Files, target: string, h: Holder, imports: Json -> bool): Result<seq<LoadedKey>, LoadFault>
    requires target in f.names ==> f.names[target] < |f.inodes|
  {
    if target !in f.names then Err(Missing)
    else
      var inode := f.inodes[f.names[target]];
      if inode.openToOthers then Err(OpenToOthers)
      else if inode.text.Partial? then Err(NotJson)
      else LoadParsed(inode.text.json, h, imports)
  }

  // ---- What a load accepts ----

  /**
   * A load gives keys exactly where the file is there, open to no one else,
   * and whole, and states those keys; the first test that fails is the fault.
   */
  lemma {:induction false} LoadsExactly(f: Files, target: string, h: Holder, imports: Json -> bool,
                                        keys: seq<LoadedKey>)
    requires target in f.names ==> f.names[target] < |f.inodes|
    ensures Load(f, target, h, imports) == Err(Missing) <==> target !in f.names
    ensures target in f.names ==>
              var inode, r := f.inodes[f.names[target]], Load(f, target, h, imports);
              && (r == Err(OpenToOthers) <==> inode.openToOthers)
              && (r == Err(NotJson) <==> !inode.openToOthers && inode.text.Partial?)
              && (r == Ok(keys) <==>
                  !inode.openToOthers && inode.text.Whole? && StatesKeys(inode.text.json, h, imports, keys))
  {
    if target in f.names && f.inodes[f.names[target]].text.Whole? {
      var v := f.inodes[f.names[target]].text.json;
      if Stated(v, "keys").Arr? {
        KeysExactly(Stated(v, "keys").items, RolesOf(h), imports, keys);
      }
      LoadFaults(v, h, imports);
    }
  }

  /** No value parsed is itself missing, unparsed or open to others. */
  lemma {:induction false} LoadFaults(v: Json, h: Holder, imports: Json -> bool)
    ensures LoadParsed(v, h, imports).Err? ==>
              var e := LoadParsed(v, h, imports).error; e != Missing && e != NotJson && e != OpenToOthers
  {
    if Stated(v, "keys").Arr? {
      KeysFaults(Stated(v, "keys").items, RolesOf(h), imports);
    }
  }

  lemma {:induction false} KeysFaults(stored: seq<Json>, expected: seq<RoleKey>, imports: Json -> bool)
    ensures LoadKeys(stored, expected, imports).Err? ==>
              var e := LoadKeys(stored, expected, imports).error; e.NullRead? || e.NoKey? || e.BadKey?
  {
    if expected != [] {
      KeysFaults(stored, expected[1..], imports);
      FindFaults(stored, expected[0].role);
    }
  }

  lemma {:induction false} FindFaults(stored: seq<Json>, role: string)
    ensures FindEntry(stored, role).Err? ==> FindEntry(stored, role).error.NullRead?
  {
    if stored != [] {
      FindFaults(stored[1..], role);
    }
  }

  // ---- Any number of initializers, step by step ----

  datatype Phase = Start | Opened | Written | Linked | Refused | Created | GaveUp

  /**
   * One `initEvidenceKeyFile`: its temporary name, the text it writes, the file it opened, whether its write took the
   * whole text, and whether it linked the file.
   */
  datatype Initializer =
    Initializer(tmp: string, content: Json, phase: Phase, inode: Option<nat>, took: bool, linked: bool)

  datatype World = World(files: Files, inits: seq<Initializer>)

  /** A step of the initializer `i`. `Stop` is a crash, or an error thrown where nothing is cleaned up. */
  datatype Event = Open(i: nat) | Write(i: nat, took: bool) | LinkTarget(i: nat) | LinkFails(i: nat)
    | UnlinkTmp(i: nat) | Stop(i: nat)

  predicate Enabled(w: World, e: Event) {
    e.i < |w.inits| &&
    match e
    case Open(i) => w.inits[i].phase.Start?
    case Write(i, _) => w.inits[i].phase.Opened? && w.inits[i].inode.Some? && w.inits[i].inode.value < |w.files.inodes|
    case LinkTarget(i) => w.inits[i].phase.Written?
    case LinkFails(i) => w.inits[i].phase.Written?
    case UnlinkTmp(i) => w.inits[i].phase.Linked? || w.inits[i].phase.Refused?
    case Stop(i) => !w.inits[i].phase.Created?
  }

  function Apply(w: World, e: Event, target: string): World
    requires Enabled(w, e)
  {
    var p := w.inits[e.i];
    match e
    case Open(i) =>
      var made := OpenNew(w.files, p.tmp);
      if made.None? then w.(inits := w.inits[i := p.(phase := GaveUp)])
      else World(made.value, w.inits[i := p.(phase := Opened, inode := Some(|w.files.inodes|))])
    case Write(i, took) =>
      World(WriteText(w.files, p.inode.value, TextWritten(p.content, took)),
            w.inits[i := p.(phase := Written, took := took)])
    case LinkTarget(i) =>
      var linked := Link(w.files, p.tmp, target);
      if linked.None? then w.(inits := w.inits[i := p.(phase := Refused)])
      else World(linked.value, w.inits[i := p.(phase := Linked, linked := true)])
    case LinkFails(i) => w.(inits := w.inits[i := p.(phase := Refused)])
    case UnlinkTmp(i) => World(Unlink(w.files, p.tmp),
                               w.inits[i := p.(phase := if p.phase.Linked? then Created else GaveUp)])
    case Stop(i) => w.(inits := w.inits[i := p.(phase := GaveUp)])
  }

  /** Temporary names are drawn apart from each other and from the target. */
  ghost predicate Apart(inits: seq<Initializer>, target: string) {
    && (forall i, j :: 0 <= i < j < |inits| ==> inits[i].tmp != inits[j].tmp)
    && (forall i :: 0 <= i < |inits| ==> inits[i].tmp != target)
  }

  ghost predicate Initial(w: World, target: string) {
    && FilesOk(w.files) && Apart(w.inits, target)
    && forall i :: 0 <= i < |w.inits| ==> w.inits[i].phase.Start? && !w.inits[i].linked && w.inits[i].inode.None?
  }

  /** What the initializer's file holds once written. */
  function TextOf(p: Initializer): FileText {
    TextWritten(p.content, p.took)
  }

  ghost predicate InitOk(w: World, i: nat, target: string, base: Files)
    requires i < |w.inits|
  {
    var p := w.inits[i];
    && (p.inode.Some? ==> |base.inodes| <= p.inode.value < |w.files.inodes|)
    && (p.phase.Start? ==> p.inode.None? && !p.linked)
    && (p.phase.Opened? || p.phase.Written? || p.phase.Linked? || p.phase.Refused? ==>
          p.inode.Some? && p.tmp in w.files.names && w.files.names[p.tmp] == p.inode.value)
    && (p.phase.Opened? ==> w.files.inodes[p.inode.value] == Inode(Partial, false))
    && (p.phase.Written? ==> w.files.inodes[p.inode.value] == Inode(TextOf(p), false))
    && (p.linked ==> p.phase.Linked? || p.phase.Created? || p.phase.GaveUp?)
    && (p.phase.Linked? || p.phase.Created? ==> p.linked)
    && (p.phase.Created? ==> p.tmp !in w.files.names)
    && (p.linked ==>
          && p.inode.Some? && target !in base.names && target in w.files.names
          && w.files.names[target] == p.inode.value && w.files.inodes[p.inode.value] == Inode(TextOf(p), false))
  }

  ghost predicate SomeoneLinked(w: World) {
    exists i :: 0 <= i < |w.inits| && w.inits[i].linked
  }

  ghost predicate OwnFiles(inits: seq<Initializer>) {
    forall i, j :: 0 <= i < j < |inits| && inits[i].inode.Some? && inits[j].inode.Some? ==>
        inits[i].inode != inits[j].inode
  }

  ghost predicate TargetOk(w: World, target: string, base: Files) {
    && (target in base.names ==> target in w.files.names && w.files.names[target] == base.names[target])
    && (target in w.files.names && target !in base.names ==> SomeoneLinked(w))
  }

  ghost predicate Inv(w: World, target: string, base: Files) {
    && FilesOk(w.files) && FilesOk(base) && Apart(w.inits, target)
    && base.inodes <= w.files.inodes
    && (forall i :: 0 <= i < |w.inits| ==> InitOk(w, i, target, base))
    && OwnFiles(w.inits)
    && TargetOk(w, target, base)
  }

  lemma StepKeepsInit(w: World, e: Event, target: string, base: Files, i: nat)
    requires Inv(w, target, base) && Enabled(w, e) && i < |w.inits|
    ensures InitOk(Apply(w, e, target), i, target, base)
  {
    assert InitOk(w, e.i, target, base) && InitOk(w, i, target, base);
  }

  lemma StepKeepsTarget(w: World, e: Event, target: string, base: Files)
    requires Inv(w, target, base) && Enabled(w, e)
    ensures TargetOk(Apply(w, e, target), target, base)
  {
    var w' := Apply(w, e, target);
    assert InitOk(w, e.i, target, base);
    if SomeoneLinked(w) {
      var i :| 0 <= i < |w.inits| && w.inits[i].linked;
      assert w'.inits[i].linked;
    }
    assert w'.inits[e.i].linked ==> SomeoneLinked(w');
  }

  lemma StepKeepsInv(w: World, e: Event, target: string, base: Files)
    requires Inv(w, target, base) && Enabled(w, e)
    ensures Inv(Apply(w, e, target), target, base)
  {
    var w' := Apply(w, e, target);
    assert InitOk(w, e.i, target, base);
    forall i | 0 <= i < |w'.inits|
      ensures InitOk(w', i, target, base)
    {
      StepKeepsInit(w, e, target, base, i);
    }
    forall i, j | 0 <= i < j < |w'.inits| && w'.inits[i].inode.Some? && w'.inits[j].inode.Some?
      ensures w'.inits[i].inode != w'.inits[j].inode
    {
      assert InitOk(w, i, target, base) && InitOk(w, j, target, base);
    }
    StepKeepsTarget(w, e, target, base);
  }

  // ---- Whole runs ----

  predicate Run(w: World, events: seq<Event>, w': World, target: string)
    decreases |events|
  {
    if events == [] then w == w' else Enabled(w, events[0]) && Run(Apply(w, events[0], target), events[1..], w', target)
  }

  lemma {:induction false} RunKeepsInv(w: World, events: seq<Event>, w': World, target: string, base: Files)
    requires Inv(w, target, base) && Run(w, events, w', target)
    ensures Inv(w', target, base)
    decreases |events|
  {
    if events != [] {
      StepKeepsInv(w, events[0], target, base);
      RunKeepsInv(Apply(w, events[0], target), events[1..], w', target, base);
    }
  }

  function FileAt(f: Files, name: string): Option<Inode>
    requires name in f.names ==> f.names[name] < |f.inodes|
  {
    if name in f.names then Some(f.inodes[f.names[name]]) else None
  }

  lemma StepKeepsTheFile(w: World, e: Event, target: string, base: Files)
    requires Inv(w, target, base) && Enabled(w, e) && target in w.files.names
    ensures FilesOk(Apply(w, e, target).files) && FileAt(Apply(w, e, target).files, target) == FileAt(w.files, target)
  {
    StepKeepsInv(w, e, target, base);
    assert InitOk(w, e.i, target, base);
    if target !in base.names {
      var j :| 0 <= j < |w.inits| && w.inits[j].linked;
      assert InitOk(w, j, target, base);
    }
  }

  /** Once present, the file never changes: not its contents, and not what it is. */
  lemma {:induction false} FileNeverChanges(w: World, events: seq<Event>, w': World, target: string, base: Files)
    requires Inv(w, target, base) && Run(w, events, w', target) && target in w.files.names
    ensures FilesOk(w'.files) && FileAt(w'.files, target) == FileAt(w.files, target)
    decreases |events|
  {
    if events != [] {
      StepKeepsInv(w, events[0], target, base);
      StepKeepsTheFile(w, events[0], target, base);
      FileNeverChanges(Apply(w, events[0], target), events[1..], w', target, base);
    }
  }

  /**
   * Of any number of initializers, however their steps interleave and wherever
   * they crash: at most one links the target, none does over a file already
   * there, and one that reports success linked it and left no temporary name.
   * A target that was absent is absent still or the text that initializer's
   * write took, open to no one else: complete exactly when the write took all
   * of it.
   */
  lemma AtMostOneCreates(w: World, events: seq<Event>, w': World, target: string)
    requires Initial(w, target) && Run(w, events, w', target)
    ensures FilesOk(w'.files)
    ensures forall i, j :: 0 <= i < |w'.inits| && 0 <= j < |w'.inits| && w'.inits[i].linked && w'.inits[j].linked ==>
            i == j
    ensures forall i :: 0 <= i < |w'.inits| && w'.inits[i].phase.Created? ==>
              w'.inits[i].linked && w'.inits[i].tmp !in w'.files.names
    ensures target in w.files.names ==> !SomeoneLinked(w') && FileAt(w'.files, target) == FileAt(w.files, target)
    ensures target !in w.files.names ==> (target in w'.files.names <==> SomeoneLinked(w'))
    ensures forall i :: 0 <= i < |w'.inits| && w'.inits[i].linked ==>
              FileAt(w'.files, target) == Some(Inode(TextOf(w'.inits[i]), false))
  {
    RunKeepsInv(w, events, w', target, w.files);
    if target in w.files.names {
      FileNeverChanges(w, events, w', target, w.files);
    }
    forall i | 0 <= i < |w'.inits| && w'.inits[i].phase.Created?
      ensures w'.inits[i].linked && w'.inits[i].tmp !in w'.files.names
    {
      assert InitOk(w', i, target, w.files);
    }
    forall i | 0 <= i < |w'.inits| && w'.inits[i].linked
      ensures target in w'.files.names && target !in w.files.names
      ensures w'.inits[i].inode == Some(w'.files.names[target])
      ensures FileAt(w'.files, target) == Some(Inode(TextOf(w'.inits[i]), false))
    {
      assert InitOk(w', i, target, w.files);
    }
  }

  lemma {:induction false} FailedStaysFailed(w: World, events: seq<Event>, w': World, target: string, i: nat)
    requires Run(w, events, w', target) && i < |w.inits| && (w.inits[i].phase.Refused? || w.inits[i].phase.GaveUp?)
    ensures i < |w'.inits| && (w'.inits[i].phase.Refused? || w'.inits[i].phase.GaveUp?)
    ensures w'.inits[i].linked == w.inits[i].linked
    ensures w.inits[i].phase.GaveUp? ==> w'.inits[i] == w.inits[i]
    decreases |events|
  {
    if events != [] {
      FailedStaysFailed(Apply(w, events[0], target), events[1..], w', target, i);
    }
  }

  /**
   * An initializer that crashes takes no further step, and one whose link
   * fails links nothing after: neither ever reports success.
   */
  lemma GivesUp(w: World, e: Event, events: seq<Event>, w': World, target: string)
    requires Enabled(w, e) && (e.Stop? || e.LinkFails?) && Run(Apply(w, e, target), events, w', target)
    ensures e.i < |w'.inits| && !w'.inits[e.i].phase.Created? && w'.inits[e.i].linked == w.inits[e.i].linked
    ensures e.Stop? ==> w'.inits[e.i] == w.inits[e.i].(phase := GaveUp)
  {
    FailedStaysFailed(Apply(w, e, target), events, w', target, e.i);
  }

  /**
   * An initializer that linked the target, crashed since or not, made the keys
   * every later load for its holder yields, in role order, exactly when its
   * write took the whole text; for the other holder every load is refused, and
   * where the write fell short every load is, for good.
   */
  lemma LoadsTheCreatorsKeys(w: World, events: seq<Event>, w': World, later: seq<Event>, w'': World, target: string,
                             i: nat, h: Holder, other: Holder, jwks: seq<Json>, imports: Json -> bool)
    requires Initial(w, target) && Run(w, events, w', target) && Run(w', later, w'', target)
    requires i < |w'.inits| && w'.inits[i].linked
    requires |jwks| == |RolesOf(h)| && w'.inits[i].content == FileOf(h, jwks)
    requires forall k :: 0 <= k < |jwks| ==> jwks[k].Obj? && imports(jwks[k])
    ensures FilesOk(w''.files)
    ensures Load(w''.files, target, other, imports) ==
            if !w'.inits[i].took then Err(NotJson)
            else if other == h then Ok(KeysOf(RolesOf(h), jwks)) else Err(OtherHolder)
  {
    RunKeepsInv(w, events, w', target, w.files);
    AtMostOneCreates(w, events, w', target);
    FileNeverChanges(w', later, w'', target, w.files);
    LoadsWhatWasWritten(h, other, jwks, imports);
  }

  /**
   * The condition is needed: an initializer whose write falls short links the
   * file all the same, and no later load succeeds.
   */
  lemma {:induction false} ShortWriteIsLinked(content: Json, h: Holder, imports: Json -> bool)
    returns (w: World, events: seq<Event>, w': World, target: string)
    ensures Initial(w, target) && target !in w.files.names && Run(w, events, w', target)
    ensures |w'.inits| == 1 && w'.inits[0].phase.Created? && w'.inits[0].content == content
    ensures FilesOk(w'.files) && Load(w'.files, target, h, imports) == Err(NotJson)
  {
    target := "pep.json";
    w := World(Files(map[], []), [Initializer(".tmp", content, Start, None, false, false)]);
    var made := Apply(w, Event.Open(0), target);
    var written := Apply(made, Event.Write(0, false), target);
    var linked := Apply(written, LinkTarget(0), target);
    w' := Apply(linked, UnlinkTmp(0), target);
    events := [UnlinkTmp(0)];
    RunStep(linked, UnlinkTmp(0), [], w', target);
    RunStep(written, LinkTarget(0), events, w', target);
    events := [LinkTarget(0)] + events;
    RunStep(made, Event.Write(0, false), events, w', target);
    events := [Event.Write(0, false)] + events;
    RunStep(w, Event.Open(0), events, w', target);
    events := [Event.Open(0)] + events;
  }

  lemma {:induction false} RunStep(w: World, e: Event, events: seq<Event>, w': World, target: string)
    requires Enabled(w, e) && Run(Apply(w, e, target), events, w', target)
    ensures Run(w, [e] + events, w', target)
  {
    assert ([e] + events)[1..] == events;
  }

  // ---- The initializer as one caller runs it ----

  datatype InitFault = NotAbsolute | DirectoryOpen | CannotOpen | AlreadyExists

  class Directory {
    var names: map<string, nat>
    var inodes: seq<Inode>

    ghost function Contents(): Files
      reads this
    {
      Files(names, inodes)
    }

    method Open(name: string) returns (fd: Option<nat>)
      modifies this
      ensures fd == if OpenNew(old(Contents()), name).Some? then Some(old(|inodes|)) else None
      ensures Contents() == if fd.Some? then OpenNew(old(Contents()), name).value else old(Contents())
    {
      if name in names {
        return None;
      }
      fd := Some(|inodes|);
      names, inodes := names[name := |inodes|], inodes + [Inode(Partial, false)];
    }

    method Write(fd: nat, json: Json, took: bool)
      requires fd < |inodes|
      modifies this
      ensures Contents() == WriteText(old(Contents()), fd, TextWritten(json, took))
    {
      inodes := inodes[fd := inodes[fd].(text := TextWritten(json, took))];
    }

    method LinkTo(from: string, to: string) returns (ok: bool)
      requires from in names
      modifies this
      ensures ok <==> Link(old(Contents()), from, to).Some?
      ensures Contents() == if ok then Link(old(Contents()), from, to).value else old(Contents())
    {
      ok := to !in names;
      if ok {
        names := names[to := names[from]];
      }
    }

    method Remove(name: string)
      modifies this
      ensures Contents() == Unlink(old(Contents()), name)
    {
      names := names - {name};
    }

    /**
     * Undisturbed: creates the file, or changes nothing; `took` says whether
     * the write takes the whole text.
     */
    method InitEvidenceKeyFile(file: string, directoryOpenToOthers: bool, h: Holder, jwks: seq<Json>, tmp: string,
                               took: bool)
      returns (r: Result<(), InitFault>)
      requires FilesOk(Contents()) && |jwks| == |RolesOf(h)| && tmp != file
      modifies this
      ensures FilesOk(Contents()) && old(inodes) <= inodes
      ensures r.Ok? <==> old(file !in names && tmp !in names) && file != "" && file[0] == '/' && !directoryOpenToOthers
      ensures r.Ok? ==> names.Keys == old(names.Keys) + {file}
      ensures r.Ok? ==> FileAt(Contents(), file) == Some(Inode(TextWritten(FileOf(h, jwks), took), false))
      ensures r.Err? ==> names == old(names)
      ensures r == Err(NotAbsolute) <==> file == "" || file[0] != '/'
      ensures r == Err(DirectoryOpen) <==> file != "" && file[0] == '/' && directoryOpenToOthers
      ensures r == Err(CannotOpen) <==> file != "" && file[0] == '/' && !directoryOpenToOthers && old(tmp in names)
      ensures forall name :: name in old(names) ==>
                name in names && FileAt(Contents(), name) == FileAt(old(Contents()), name)
    {
      if file == "" || file[0] != '/' {
        return Err(NotAbsolute);
      }
      if directoryOpenToOthers {
        return Err(DirectoryOpen);
      }
      var content := FileOf(h, jwks);
      var fd := Open(tmp);
      if fd.None? {
        return Err(CannotOpen);
      }
      Write(fd.value, content, took);
      var linked := LinkTo(tmp, file);
      Remove(tmp);
      if !linked {
        return Err(AlreadyExists);
      }
      return Ok(());
    }
  }
}
