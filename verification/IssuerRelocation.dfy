/** Moving the Mission issuer of a pilot configuration, in exactly the fields that name it. */
module IssuerRelocation {
  import opened Wrappers
  import opened Json
  import opened MappingContract
  import opened MappingSnapshot
  import opened LoadedDocuments

  datatype Route = Route(route: string, missionBound: bool, issuer: string)

  /** The configuration's members a relocation reads; the others it keeps. */
  datatype Config = Config(missionIssuer: string, mappingContract: Json, routes: seq<Route>, others: Json)

  function Moved(value: string, from: string, url: string): string {
    if value == from then url else value
  }

  /** `{ ...r, [key]: value }` for a key `r` holds: in place, every other member kept. */
  function Put<V>(r: Rec<V>, key: string, value: V): (out: Rec<V>)
    ensures |out| == |r|
    ensures forall i :: 0 <= i < |r| ==> out[i] == (r[i].0, if r[i].0 == key then value else r[i].1)
  {
    var out := seq(|r|, i requires 0 <= i < |r| => (r[i].0, if r[i].0 == key then value else r[i].1));
    assert DistinctKeys(out);
    out
  }

  /** A row whose `to` is an object with a text `iss`: the rows a relocation rewrites. */
  predicate NamesAnIssuer(row: Json) {
    && row.Obj? && OwnValue(row.members, "to").Some? && OwnValue(row.members, "to").value.Obj?
    && OwnValue(OwnValue(row.members, "to").value.members, "iss").Some?
    && OwnValue(OwnValue(row.members, "to").value.members, "iss").value.Str?
  }

  function MoveTarget(to: Rec<Json>, from: string, url: string): Rec<Json>
    requires OwnValue(to, "iss").Some? && OwnValue(to, "iss").value.Str?
  {
    Put(to, "iss", Str(Moved(OwnValue(to, "iss").value.s, from, url)))
  }

  function RelocateRow(row: Json, from: string, url: string): Json {
    if !NamesAnIssuer(row) then row
    else Obj(Put(row.members, "to", Obj(MoveTarget(OwnValue(row.members, "to").value.members, from, url))))
  }

  function RelocateRows(rows: seq<Json>, from: string, url: string): (out: seq<Json>)
    ensures |out| == |rows| && forall i :: 0 <= i < |rows| ==> out[i] == RelocateRow(rows[i], from, url)
  {
    if rows == [] then [] else RelocateRows(rows[..|rows| - 1], from, url) + [RelocateRow(rows[|rows| - 1], from, url)]
  }

  function RelocateIssuer(o: Rec<Json>, from: string, url: string): Rec<Json> {
    var issuer := OwnValue(o, "mission_issuer");
    if issuer.Some? && issuer.value.Str? then Put(o, "mission_issuer", Str(Moved(issuer.value.s, from, url))) else o
  }

  function RelocateSubjects(o: Rec<Json>, from: string, url: string): Rec<Json> {
    var subjects := OwnValue(o, "subjects");
    if subjects.Some? && subjects.value.Arr? then Put(o, "subjects", Arr(RelocateRows(subjects.value.items, from, url)))
    else o
  }

  /** The contract's Mission-issuer fields moved; anything else passes through, to be judged at install. */
  function RelocateContract(contract: Json, from: string, url: string): Json {
    if !contract.Obj? then contract else Obj(RelocateSubjects(RelocateIssuer(contract.members, from, url), from, url))
  }

  function RelocateRoutes(routes: seq<Route>, from: string, url: string): seq<Route> {
    seq(|routes|, i requires 0 <= i < |routes| =>
      if routes[i].missionBound then routes[i].(issuer := Moved(routes[i].issuer, from, url)) else routes[i])
  }

  function RelocateMissionIssuer(config: Config, url: string): Config {
    var from := config.missionIssuer;
    if from == url then config
    else Config(url, RelocateContract(config.mappingContract, from, url), RelocateRoutes(config.routes, from, url),
                config.others)
  }

  // ---- Relocation commutes with the strict loader ----

  lemma {:induction false} PutValue<V>(r: Rec<V>, key: string, value: V, k: string)
    ensures HasKey(Put(r, key, value), k) <==> HasKey(r, k)
    ensures OwnValue(Put(r, key, value), k) == if k == key && HasKey(r, k) then Some(value) else OwnValue(r, k)
  {
    var out := Put(r, key, value);
    if HasKey(r, k) {
      var i :| 0 <= i < |r| && r[i].0 == k;
      assert out[i].0 == k;
      OwnValueAt(r, i);
      OwnValueAt(out, i);
    }
    if HasKey(out, k) {
      var i :| 0 <= i < |out| && out[i].0 == k;
      assert r[i].0 == k;
    }
  }

  ghost predicate SameKeys<V, W>(r: seq<(string, V)>, q: seq<(string, W)>) {
    |r| == |q| && forall i :: 0 <= i < |r| ==> r[i].0 == q[i].0
  }

  lemma {:induction false} SameKeysSameChecks<V, W>(r: seq<(string, V)>, q: seq<(string, W)>, names: seq<string>)
    requires SameKeys(r, q)
    ensures UnknownKey(r, names) == UnknownKey(q, names) && MissingKey(r, names) == MissingKey(q, names)
  {
    SameKeysSameUnknown(r, q, names);
    SameKeysSameMissing(r, q, names);
  }

  lemma {:induction false} SameKeysSameUnknown<V, W>(r: seq<(string, V)>, q: seq<(string, W)>, names: seq<string>)
    requires SameKeys(r, q)
    ensures UnknownKey(r, names) == UnknownKey(q, names)
  {
    if r != [] {
      SameKeysSameUnknown(r[1..], q[1..], names);
    }
  }

  lemma {:induction false} SameKeysSameMissing<V, W>(r: seq<(string, V)>, q: seq<(string, W)>, names: seq<string>)
    requires SameKeys(r, q)
    ensures MissingKey(r, names) == MissingKey(q, names)
  {
    if names != [] {
      assert HasKey(r, names[0]) <==> HasKey(q, names[0]) by {
        if HasKey(r, names[0]) {
          var i :| 0 <= i < |r| && r[i].0 == names[0];
          assert q[i].0 == names[0];
        }
        if HasKey(q, names[0]) {
          var i :| 0 <= i < |q| && q[i].0 == names[0];
          assert r[i].0 == names[0];
        }
      }
      SameKeysSameMissing(r, q, names[1..]);
    }
  }

  /** Objects with the same keys pass or fail a member check alike. */
  lemma ObjectOfSameKeys(r: Rec<Json>, q: Rec<Json>, at: Place, names: seq<string>)
    requires SameKeys(r, q)
    ensures ObjectOf(Obj(q), at, names) ==
            if ObjectOf(Obj(r), at, names).Err? then Err(ObjectOf(Obj(r), at, names).error) else Ok(q)
  {
    SameKeysSameChecks(r, q, names);
  }

  function MapOk<A, B>(r: Result<A, Fault>, f: A -> B): Result<B, Fault> {
    if r.Ok? then Ok(f(r.value)) else Err(r.error)
  }

  function MoveIdentity(id: Identity, from: string, url: string): Identity {
    Identity(Moved(id.iss, from, url), id.id)
  }

  function MoveRow(row: SubjectRow, from: string, url: string): SubjectRow {
    row.(to := MoveIdentity(row.to, from, url))
  }

  function MoveRows(rows: seq<SubjectRow>, from: string, url: string): (out: seq<SubjectRow>)
    ensures |out| == |rows| && forall i :: 0 <= i < |rows| ==> out[i] == MoveRow(rows[i], from, url)
  {
    if rows == [] then [] else MoveRows(rows[..|rows| - 1], from, url) + [MoveRow(rows[|rows| - 1], from, url)]
  }

  /** The document with its Mission issuer, and each subject's Mission-side issuer, moved where it is `from`. */
  function MoveDocument(doc: Document, from: string, url: string): Document {
    doc.(missionIssuer := Moved(doc.missionIssuer, from, url), subjects := MoveRows(doc.subjects, from, url))
  }

  lemma IdentityMoved(iss: string, id: Json, at: Place, from: string, url: string)
    requires from != "" && url != ""
    ensures IdentityIn(Str(Moved(iss, from, url)), id, at, "sub") ==
            MapOk(IdentityIn(Str(iss), id, at, "sub"), (i: Identity) => MoveIdentity(i, from, url))
  {
  }

  lemma TargetMoved(to: Rec<Json>, at: Place, from: string, url: string)
    requires from != "" && url != ""
    requires OwnValue(to, "iss").Some? && OwnValue(to, "iss").value.Str?
    ensures var moved := MoveTarget(to, from, url);
            IdentityIn(Get(moved, "iss"), Get(moved, "sub"), at, "sub") ==
            MapOk(IdentityIn(Get(to, "iss"), Get(to, "sub"), at, "sub"), (i: Identity) => MoveIdentity(i, from, url))
  {
    var iss := OwnValue(to, "iss").value.s;
    var moved := MoveTarget(to, from, url);
    PutValue(to, "iss", Str(Moved(iss, from, url)), "iss");
    PutValue(to, "iss", Str(Moved(iss, from, url)), "sub");
    assert Get(moved, "iss") == Str(Moved(iss, from, url)) && Get(moved, "sub") == Get(to, "sub") &&
           Get(to, "iss") == Str(iss);
    IdentityMoved(iss, Get(to, "sub"), at, from, url);
  }

  lemma SubjectFromMoved(fromId: Result<Identity, Fault>, toId: Result<Identity, Fault>, active: Result<bool, Fault>,
                         from: string, url: string)
    ensures SubjectFrom(fromId, MapOk(toId, (i: Identity) => MoveIdentity(i, from, url)), active) ==
            MapOk(SubjectFrom(fromId, toId, active), (r: SubjectRow) => MoveRow(r, from, url))
  {
  }

  lemma SubjectMoved(fromObject: Result<Rec<Json>, Fault>, to: Rec<Json>, status: Json, at: Place, from: string,
                     url: string)
    requires from != "" && url != ""
    requires OwnValue(to, "iss").Some? && OwnValue(to, "iss").value.Str?
    ensures SubjectOf(fromObject, Ok(MoveTarget(to, from, url)), status, at) ==
            MapOk(SubjectOf(fromObject, Ok(to), status, at), (r: SubjectRow) => MoveRow(r, from, url))
  {
    TargetMoved(to, at + [Member("to")], from, url);
    if fromObject.Ok? {
      var from' := fromObject.value;
      SubjectFromMoved(IdentityIn(Get(from', "iss"), Get(from', "sub"), at + [Member("from")], "sub"),
                       IdentityIn(Get(to, "iss"), Get(to, "sub"), at + [Member("to")], "sub"),
                       Status(status, at + [Member("status")]), from, url);
    }
  }

  lemma SubjectInMoved(fromRaw: Json, to: Rec<Json>, status: Json, at: Place, from: string, url: string)
    requires from != "" && url != ""
    requires OwnValue(to, "iss").Some? && OwnValue(to, "iss").value.Str?
    ensures SubjectIn(fromRaw, Obj(MoveTarget(to, from, url)), status, at) ==
            MapOk(SubjectIn(fromRaw, Obj(to), status, at), (r: SubjectRow) => MoveRow(r, from, url))
  {
    var fromObject := ObjectOf(fromRaw, at + [Member("from")], ["iss", "sub"]);
    ObjectOfSameKeys(to, MoveTarget(to, from, url), at + [Member("to")], ["iss", "sub"]);
    SubjectMoved(fromObject, to, status, at, from, url);
  }

  lemma LoadedTargetNamesAnIssuer(fromRaw: Json, to: Json, status: Json, at: Place)
    requires SubjectIn(fromRaw, to, status, at).Ok?
    ensures to.Obj? && OwnValue(to.members, "iss").Some? && OwnValue(to.members, "iss").value.Str?
  {
    assert ObjectOf(to, at + [Member("to")], ["iss", "sub"]).Ok?;
    assert IdentityIn(Get(to.members, "iss"), Get(to.members, "sub"), at + [Member("to")], "sub").Ok?;
  }

  /** A row that loads is one a relocation rewrites. */
  lemma LoadedRowNamesAnIssuer(row: Json, at: Place)
    requires ParseSubjectRow(row, at).Ok?
    ensures NamesAnIssuer(row)
  {
    var o := row.members;
    assert HasKey(o, "to") by { assert "to" in ["from", "to", "status"]; }
    LoadedTargetNamesAnIssuer(Get(o, "from"), Get(o, "to"), Get(o, "status"), at);
  }

  lemma RowWithMovedTarget(row: Rec<Json>, to: Json, at: Place)
    requires OwnValue(row, "to").Some?
    ensures ParseSubjectRow(Obj(Put(row, "to", to)), at) ==
            var o := ObjectOf(Obj(row), at, ["from", "to", "status"]);
            if o.Err? then Err(o.error) else SubjectIn(Get(row, "from"), to, Get(row, "status"), at)
  {
    var moved := Put(row, "to", to);
    ObjectOfSameKeys(row, moved, at, ["from", "to", "status"]);
    PutValue(row, "to", to, "from");
    PutValue(row, "to", to, "to");
    PutValue(row, "to", to, "status");
    assert Get(moved, "from") == Get(row, "from") && Get(moved, "to") == to &&
           Get(moved, "status") == Get(row, "status");
  }

  lemma RowMoved(row: Json, at: Place, from: string, url: string)
    requires from != "" && url != ""
    ensures ParseSubjectRow(RelocateRow(row, from, url), at) ==
            MapOk(ParseSubjectRow(row, at), (r: SubjectRow) => MoveRow(r, from, url))
  {
    if NamesAnIssuer(row) {
      var to := OwnValue(row.members, "to").value.members;
      RowWithMovedTarget(row.members, Obj(MoveTarget(to, from, url)), at);
      SubjectInMoved(Get(row.members, "from"), to, Get(row.members, "status"), at, from, url);
    } else if ParseSubjectRow(row, at).Ok? {
      LoadedRowNamesAnIssuer(row, at);
    }
  }

  /** Rows loaded alike up to `move`, which keeps each row's identity. */
  ghost predicate Alike<R>(out: Result<seq<R>, Fault>, out': Result<seq<R>, Fault>, from: R -> Identity, move: R -> R) {
    if out.Err? then out' == Err(out.error)
    else
      && out'.Ok? && |out'.value| == |out.value|
      && forall i :: 0 <= i < |out.value| ==>
           out'.value[i] == move(out.value[i]) && from(out'.value[i]) == from(out.value[i])
  }

  /** One more row read after those before it. */
  function Joined<R>(earlier: Result<seq<R>, Fault>, row: Result<R, Fault>, at: Place, from: R -> Identity)
    : Result<seq<R>, Fault>
  {
    var rows :- earlier;
    var last :- row;
    if exists j :: 0 <= j < |rows| && from(rows[j]) == from(last) then Err(Ambiguous(at)) else Ok(rows + [last])
  }

  lemma {:induction false} ParseRowsJoins<R>(rows: seq<Json>, at: Place, parse: (Json, Place) -> Result<R, Fault>,
                                             from: R -> Identity)
    requires rows != []
    ensures var n := |rows| - 1;
            ParseRows(rows, at, parse, from) ==
            Joined(ParseRows(rows[..n], at, parse, from), parse(rows[n], at + [Index(n)]), at + [Index(n)], from)
  {
  }

  lemma {:induction false} JoinedAlike<R>(earlier: Result<seq<R>, Fault>, earlier': Result<seq<R>, Fault>,
                                          row: Result<R, Fault>, row': Result<R, Fault>, at: Place,
                                          from: R -> Identity, move: R -> R)
    requires Alike(earlier, earlier', from, move) && row' == MapOk(row, move)
    requires row.Ok? ==> from(move(row.value)) == from(row.value)
    ensures Alike(Joined(earlier, row, at, from), Joined(earlier', row', at, from), from, move)
  {
    if earlier.Ok? && row.Ok? {
      assert forall j :: 0 <= j < |earlier.value| ==> from(earlier'.value[j]) == from(earlier.value[j]);
    }
  }

  /** Rows that load alike one by one load together alike. */
  lemma {:induction false} RowsMapped<R>(rows: seq<Json>, rows': seq<Json>, at: Place,
                                         parse: (Json, Place) -> Result<R, Fault>,
                                         from: R -> Identity, move: R -> R)
    requires |rows| == |rows'|
    requires forall i :: 0 <= i < |rows| ==>
             parse(rows'[i], at + [Index(i)]) == MapOk(parse(rows[i], at + [Index(i)]), move)
    requires forall i :: 0 <= i < |rows| && parse(rows[i], at + [Index(i)]).Ok? ==>
               from(move(parse(rows[i], at + [Index(i)]).value)) == from(parse(rows[i], at + [Index(i)]).value)
    ensures Alike(ParseRows(rows, at, parse, from), ParseRows(rows', at, parse, from), from, move)
  {
    if rows != [] {
      var n := |rows| - 1;
      RowsMapped(rows[..n], rows'[..n], at, parse, from, move);
      ParseRowsJoins(rows, at, parse, from);
      ParseRowsJoins(rows', at, parse, from);
      JoinedAlike(ParseRows(rows[..n], at, parse, from), ParseRows(rows'[..n], at, parse, from),
                  parse(rows[n], at + [Index(n)]), parse(rows'[n], at + [Index(n)]), at + [Index(n)], from, move);
    }
  }

  lemma RowListMovedBy(rows: seq<Json>, at: Place, parse: (Json, Place) -> Result<SubjectRow, Fault>, from: string,
                       url: string)
    requires forall i :: 0 <= i < |rows| ==>
               parse(RelocateRow(rows[i], from, url), at + [Index(i)]) ==
               MapOk(parse(rows[i], at + [Index(i)]), (r: SubjectRow) => MoveRow(r, from, url))
    ensures ParseRows(RelocateRows(rows, from, url), at, parse, (row: SubjectRow) => row.from) ==
            MapOk(ParseRows(rows, at, parse, (row: SubjectRow) => row.from),
                  (rs: seq<SubjectRow>) => MoveRows(rs, from, url))
  {
    var rows' := RelocateRows(rows, from, url);
    RowsMapped(rows, rows', at, parse, (row: SubjectRow) => row.from, (r: SubjectRow) => MoveRow(r, from, url));
    var out := ParseRows(rows, at, parse, (row: SubjectRow) => row.from);
    var out' := ParseRows(rows', at, parse, (row: SubjectRow) => row.from);
    if out.Ok? {
      assert out'.value == MoveRows(out.value, from, url);
    }
  }

  lemma SubjectRowsMoved(rows: seq<Json>, at: Place, from: string, url: string)
    requires from != "" && url != ""
    ensures forall i :: 0 <= i < |rows| ==>
              ParseSubjectRow(RelocateRow(rows[i], from, url), at + [Index(i)]) ==
              MapOk(ParseSubjectRow(rows[i], at + [Index(i)]), (r: SubjectRow) => MoveRow(r, from, url))
  {
    forall i | 0 <= i < |rows|
      ensures ParseSubjectRow(RelocateRow(rows[i], from, url), at + [Index(i)]) ==
              MapOk(ParseSubjectRow(rows[i], at + [Index(i)]), (r: SubjectRow) => MoveRow(r, from, url))
    {
      RowMoved(rows[i], at + [Index(i)], from, url);
    }
  }

  lemma SubjectsMoved(v: Json, from: string, url: string)
    requires from != "" && url != ""
    ensures ParseSubjects(if v.Arr? then Arr(RelocateRows(v.items, from, url)) else v) ==
            MapOk(ParseSubjects(v), (rs: seq<SubjectRow>) => MoveRows(rs, from, url))
  {
    if v.Arr? {
      SubjectRowsMoved(v.items, SubjectsAt, from, url);
      RowListMovedBy(v.items, SubjectsAt, ParseSubjectRow, from, url);
    }
  }

  lemma AssembledMoved(version: nat, missionIssuer: Result<string, Fault>, subjects: Result<seq<SubjectRow>, Fault>,
                       remainder: Result<Remainder, Fault>, from: string, url: string)
    ensures Assembled(version, MapOk(missionIssuer, (t: string) => Moved(t, from, url)),
                      MapOk(subjects, (rs: seq<SubjectRow>) => MoveRows(rs, from, url)), remainder) ==
            MapOk(Assembled(version, missionIssuer, subjects, remainder),
                  (doc: Document) => MoveDocument(doc, from, url))
  {
  }

  function RootBy(read: string -> Json): Root {
    Root(read("contract_id"), read("version"), read("issued_at"), read("provenance"), read("mission_issuer"),
         read("subjects"), read("clients"), read("scopes"), read("delegates"), read("instance"), read("failure"))
  }

  lemma RootReadBy(o: Rec<Json>)
    ensures ReadRoot(o) == RootBy(k => Get(o, k))
  {
  }

  lemma RootByIssuer(read: string -> Json, read': string -> Json, value: Json)
    requires forall k :: read'(k) == if k == "mission_issuer" then value else read(k)
    ensures RootBy(read') == RootBy(read).(missionIssuer := value)
  {
  }

  lemma RootBySubjects(read: string -> Json, read': string -> Json, value: Json)
    requires forall k :: read'(k) == if k == "subjects" then value else read(k)
    ensures RootBy(read') == RootBy(read).(subjects := value)
  {
  }

  lemma PutRead(o: Rec<Json>, key: string, value: Json)
    requires HasKey(o, key)
    ensures forall k :: Get(Put(o, key, value), k) == if k == key then value else Get(o, k)
  {
    forall k
      ensures Get(Put(o, key, value), k) == if k == key then value else Get(o, k)
    {
      PutValue(o, key, value, k);
    }
  }

  lemma PutIssuerRead(o: Rec<Json>, value: Json)
    requires HasKey(o, "mission_issuer")
    ensures ReadRoot(Put(o, "mission_issuer", value)) == ReadRoot(o).(missionIssuer := value)
  {
    PutRead(o, "mission_issuer", value);
    var o' := Put(o, "mission_issuer", value);
    RootReadBy(o);
    RootReadBy(o');
    RootByIssuer(k => Get(o, k), k => Get(o', k), value);
  }

  lemma PutSubjectsRead(o: Rec<Json>, value: Json)
    requires HasKey(o, "subjects")
    ensures ReadRoot(Put(o, "subjects", value)) == ReadRoot(o).(subjects := value)
  {
    PutRead(o, "subjects", value);
    var o' := Put(o, "subjects", value);
    RootReadBy(o);
    RootReadBy(o');
    RootBySubjects(k => Get(o, k), k => Get(o', k), value);
  }

  function MoveIssuerValue(v: Json, from: string, url: string): Json {
    if v.Str? then Str(Moved(v.s, from, url)) else v
  }

  function MoveSubjectsValue(v: Json, from: string, url: string): Json {
    if v.Arr? then Arr(RelocateRows(v.items, from, url)) else v
  }

  /** A relocated root: the two members moved, the other nine kept, under the same keys. */
  lemma RelocatedRoot(o: Rec<Json>, from: string, url: string)
    ensures var o' := RelocateSubjects(RelocateIssuer(o, from, url), from, url);
            && SameKeys(o, o')
            && ReadRoot(o') == ReadRoot(o).(missionIssuer := MoveIssuerValue(ReadRoot(o).missionIssuer, from, url),
                                            subjects := MoveSubjectsValue(ReadRoot(o).subjects, from, url))
  {
    var mid := RelocateIssuer(o, from, url);
    if mid != o {
      PutIssuerRead(o, Str(Moved(OwnValue(o, "mission_issuer").value.s, from, url)));
    }
    assert ReadRoot(mid) == ReadRoot(o).(missionIssuer := MoveIssuerValue(ReadRoot(o).missionIssuer, from, url));
    RelocatedSubjects(mid, from, url);
  }

  lemma RelocatedSubjects(o: Rec<Json>, from: string, url: string)
    ensures SameKeys(o, RelocateSubjects(o, from, url))
    ensures ReadRoot(RelocateSubjects(o, from, url)) ==
            ReadRoot(o).(subjects := MoveSubjectsValue(ReadRoot(o).subjects, from, url))
  {
    var subjects := OwnValue(o, "subjects");
    if subjects.Some? && subjects.value.Arr? {
      PutSubjectsRead(o, Arr(RelocateRows(subjects.value.items, from, url)));
    }
  }

  lemma {:induction false} IssuerMoved(v: Json, at: Place, from: string, url: string)
    requires from != "" && url != ""
    ensures Text(MoveIssuerValue(v, from, url), at) == MapOk(Text(v, at), (t: string) => Moved(t, from, url))
  {
  }

  lemma {:induction false} RootParses(root: Root, env: Env, version: nat, provenance: Rec<Json>,
                                      remainder: Result<Remainder, Fault>)
    requires IntegerAtLeast(root.version, 1, [Member("version")]) == Ok(version)
    requires ObjectOf(root.provenance, [Member("provenance")], ["source", "export_id", "exported_at"]) == Ok(provenance)
    requires ParseRemainder(root, provenance, env) == remainder
    ensures ParseRoot(root, env) ==
            Assembled(version, Text(root.missionIssuer, [Member("mission_issuer")]), ParseSubjects(root.subjects),
                      remainder)
  {
  }

  /** A root with its two relocated members moved. */
  function MoveRoot(root: Root, from: string, url: string): Root {
    root.(missionIssuer := MoveIssuerValue(root.missionIssuer, from, url),
          subjects := MoveSubjectsValue(root.subjects, from, url))
  }

  lemma {:induction false} RemainderKept(root: Root, provenance: Rec<Json>, env: Env, from: string, url: string)
    ensures ParseRemainder(MoveRoot(root, from, url), provenance, env) == ParseRemainder(root, provenance, env)
  {
  }

  lemma {:induction false} RootMoved(root: Root, env: Env, from: string, url: string)
    requires from != "" && url != ""
    ensures ParseRoot(MoveRoot(root, from, url), env) ==
            MapOk(ParseRoot(root, env), (doc: Document) => MoveDocument(doc, from, url))
  {
    var version := IntegerAtLeast(root.version, 1, [Member("version")]);
    var provenance := ObjectOf(root.provenance, [Member("provenance")], ["source", "export_id", "exported_at"]);
    if version.Ok? && provenance.Ok? {
      var remainder := ParseRemainder(root, provenance.value, env);
      RemainderKept(root, provenance.value, env, from, url);
      RootParses(root, env, version.value, provenance.value, remainder);
      RootParses(MoveRoot(root, from, url), env, version.value, provenance.value, remainder);
      IssuerMoved(root.missionIssuer, [Member("mission_issuer")], from, url);
      SubjectsMoved(root.subjects, from, url);
      AssembledMoved(version.value, Text(root.missionIssuer, [Member("mission_issuer")]), ParseSubjects(root.subjects),
                     remainder, from, url);
    } else {
      RootRefused(root, env);
      RootRefused(MoveRoot(root, from, url), env);
    }
  }

  lemma {:induction false} RootRefused(root: Root, env: Env)
    ensures var version := IntegerAtLeast(root.version, 1, [Member("version")]);
            var provenance := ObjectOf(root.provenance, [Member("provenance")], ["source", "export_id", "exported_at"]);
            && (version.Err? ==> ParseRoot(root, env) == Err(version.error))
            && (version.Ok? && provenance.Err? ==> ParseRoot(root, env) == Err(provenance.error))
  {
  }

  /**
   * Relocation commutes with strict loading: the relocated contract loads exactly when the original does, as its moved
   * document.
   */
  lemma RelocationCommutesWithLoading(raw: Json, env: Env, from: string, url: string)
    requires from != "" && url != ""
    ensures Parse(RelocateContract(raw, from, url), env) ==
            MapOk(Parse(raw, env), (doc: Document) => MoveDocument(doc, from, url))
  {
    if raw.Obj? {
      var o' := RelocateSubjects(RelocateIssuer(raw.members, from, url), from, url);
      RelocatedRoot(raw.members, from, url);
      ObjectOfSameKeys(raw.members, o', [], TOP_LEVEL);
      RootMoved(ReadRoot(raw.members), env, from, url);
    }
  }

  // ---- Relocation and resolution ----

  function MoveOutcome(outcome: Outcome, from: string, url: string): Outcome {
    if outcome.Resolved? then Resolved(outcome.to.(subject := MoveIdentity(outcome.to.subject, from, url))) else outcome
  }

  lemma {:induction false} IndexMoved(rows: seq<SubjectRow>, from: string, url: string)
    ensures var index := IndexRows(rows, (row: SubjectRow) => row.from);
            IndexRows(MoveRows(rows, from, url), (row: SubjectRow) => row.from) ==
            map id | id in index :: MoveRow(index[id], from, url)
  {
    if rows != [] {
      var n := |rows| - 1;
      assert MoveRows(rows, from, url)[..n] == MoveRows(rows[..n], from, url);
      IndexMoved(rows[..n], from, url);
    }
  }

  /** One side of the comparison already names the new issuer while the other still names the old one. */
  predicate Crosses(a: string, b: string, from: string, url: string) {
    (a == from && b == url) || (a == url && b == from)
  }

  /**
   * Asked for the moved Mission issuer, the relocated document answers as the
   * original did, its answer moved: exactly unless, while it is fresh, the one
   * of the asked and the document's issuer was the old and the other already
   * the new one, which the relocation makes equal.
   */
  lemma RelocationCommutesWithResolution(doc: Document, installedAt: int, maxStaleMs: nat, subject: Identity,
                                         client: Identity,
                                         missionIssuer: string, now: int, from: string, url: string)
    requires from != url
    ensures Resolve(SnapshotOf(MoveDocument(doc, from, url), installedAt, maxStaleMs), subject, client,
                    Moved(missionIssuer, from, url), now) ==
            MoveOutcome(Resolve(SnapshotOf(doc, installedAt, maxStaleMs), subject, client, missionIssuer, now), from,
                        url)
            <==> !(Fresh(SnapshotOf(doc, installedAt, maxStaleMs), now) &&
                   Crosses(missionIssuer, doc.missionIssuer, from, url))
  {
    IndexMoved(doc.subjects, from, url);
  }

  /** A contract of one subject and one client, at the Mission issuer `a`. */
  function OneOfEach(): Document {
    Document("m", 1, DATE, Provenance("p", "x", DATE), "a", [SubjectRow(Identity("e", "s"), Identity("a", "s"), true)],
             [ClientRow(Identity("e", "c"), "c", true)], "r", [], [])
  }

  /**
   * The case the exact condition shuts out: a contract the strict loader
   * accepts, relocated from `a` to `b`. Asked at `b`, the original refuses and
   * the relocated one resolves.
   */
  lemma {:induction false} RelocationCanStartResolving(env: Env)
    returns (raw: Json, subject: Identity, client: Identity)
    requires env.calendarAccepts(DATE)
    ensures var original, moved := Parse(raw, env), Parse(RelocateContract(raw, "a", "b"), env);
            && original.Ok? && moved.Ok?
            && Resolve(SnapshotOf(original.value, 0, 1000), subject, client, "b", 1) == WrongMissionIssuer
            && Resolve(SnapshotOf(moved.value, 0, 1000), subject, client, Moved("b", "a", "b"), 1) ==
               Resolved(Resolution(Identity("b", "s"), "c"))
  {
    var doc := OneOfEach();
    raw, subject, client := Written(doc), Identity("e", "s"), Identity("e", "c");
    DateIsDated();
    WrittenLoads(doc, env);
    RelocationCommutesWithLoading(raw, env, "a", "b");
    OneOfEachResolves();
  }

  lemma {:induction false} OneOfEachResolves()
    ensures var s, t := SnapshotOf(OneOfEach(), 0, 1000), SnapshotOf(MoveDocument(OneOfEach(), "a", "b"), 0, 1000);
            && Resolve(s, Identity("e", "s"), Identity("e", "c"), "b", 1) == WrongMissionIssuer
            && Resolve(t, Identity("e", "s"), Identity("e", "c"), Moved("b", "a", "b"), 1) ==
               Resolved(Resolution(Identity("b", "s"), "c"))
  {
    var doc := OneOfEach();
    IndexMoved(doc.subjects, "a", "b");
    assert doc.subjects[..0] == [] && doc.clients[..0] == [];
  }

  // ---- Relocating twice ----

  /** A place a relocation would move holds `issuer`. */
  predicate RowNames(row: Json, issuer: string) {
    NamesAnIssuer(row) && OwnValue(OwnValue(row.members, "to").value.members, "iss").value.s == issuer
  }

  predicate MemberNames(key: string, v: Json, issuer: string) {
    || (key == "mission_issuer" && v == Str(issuer))
    || (key == "subjects" && v.Arr? && exists i :: 0 <= i < |v.items| && RowNames(v.items[i], issuer))
  }

  predicate ContractNames(contract: Json, issuer: string) {
    && contract.Obj?
    && exists i :: 0 <= i < |contract.members| && MemberNames(contract.members[i].0, contract.members[i].1, issuer)
  }

  predicate Names(config: Config, issuer: string) {
    || ContractNames(config.mappingContract, issuer)
    || exists i :: 0 <= i < |config.routes| && config.routes[i].missionBound && config.routes[i].issuer == issuer
  }

  lemma PutTwice<V>(r: Rec<V>, key: string, v: V, w: V)
    requires HasKey(r, key)
    ensures Put(Put(r, key, v), key, w) == Put(r, key, w)
  {
  }

  lemma PutIdentifies<V>(r: Rec<V>, key: string, v: V, w: V)
    requires HasKey(r, key)
    ensures Put(r, key, v) == Put(r, key, w) <==> v == w
  {
    var i :| 0 <= i < |r| && r[i].0 == key;
    assert Put(r, key, v)[i].1 == v && Put(r, key, w)[i].1 == w;
  }

  lemma PutsCompare<V>(r: Rec<V>, key: string, u: V, v: V, w: V)
    requires HasKey(r, key)
    ensures HasKey(Put(r, key, u), key) && OwnValue(Put(r, key, u), key) == Some(u)
    ensures Put(Put(r, key, u), key, v) == Put(r, key, w) <==> v == w
  {
    PutValue(r, key, u, key);
    PutTwice(r, key, u, v);
    PutIdentifies(r, key, v, w);
  }

  lemma TargetTwice(to: Rec<Json>, a: string, b: string, c: string)
    requires OwnValue(to, "iss").Some? && OwnValue(to, "iss").value.Str?
    requires a != b && b != c
    ensures var once := MoveTarget(to, a, b);
            && OwnValue(once, "iss") == Some(Str(Moved(OwnValue(to, "iss").value.s, a, b)))
            && (MoveTarget(once, b, c) == MoveTarget(to, a, c) <==> OwnValue(to, "iss").value.s != b)
  {
    var s := OwnValue(to, "iss").value.s;
    PutsCompare(to, "iss", Str(Moved(s, a, b)), Str(Moved(Moved(s, a, b), b, c)), Str(Moved(s, a, c)));
  }

  function WithTarget(row: Rec<Json>, to: Rec<Json>): Json {
    Obj(Put(row, "to", Obj(to)))
  }

  lemma WithTargetTwice(row: Rec<Json>, u: Rec<Json>, v: Rec<Json>, w: Rec<Json>)
    requires HasKey(row, "to")
    ensures OwnValue(WithTarget(row, u).members, "to") == Some(Obj(u))
    ensures WithTarget(WithTarget(row, u).members, v) == WithTarget(row, w) <==> v == w
  {
    PutsCompare(row, "to", Obj(u), Obj(v), Obj(w));
  }

  lemma RelocatedRow(row: Json, from: string, url: string)
    requires NamesAnIssuer(row)
    ensures RelocateRow(row, from, url) ==
            WithTarget(row.members, MoveTarget(OwnValue(row.members, "to").value.members, from, url))
  {
  }

  lemma RowTwice(row: Json, a: string, b: string, c: string)
    requires a != b && b != c
    ensures RelocateRow(RelocateRow(row, a, b), b, c) == RelocateRow(row, a, c) <==> !RowNames(row, b)
  {
    if NamesAnIssuer(row) {
      var to := OwnValue(row.members, "to").value.members;
      var once := MoveTarget(to, a, b);
      TargetTwice(to, a, b, c);
      WithTargetTwice(row.members, once, MoveTarget(once, b, c), MoveTarget(to, a, c));
      RelocatedRow(row, a, b);
      RelocatedRow(row, a, c);
      RelocatedRow(WithTarget(row.members, once), b, c);
    }
  }

  lemma RowsTwice(rows: seq<Json>, a: string, b: string, c: string)
    requires a != b && b != c
    ensures RelocateRows(RelocateRows(rows, a, b), b, c) == RelocateRows(rows, a, c) <==>
            !exists i :: 0 <= i < |rows| && RowNames(rows[i], b)
  {
    var twice, once := RelocateRows(RelocateRows(rows, a, b), b, c), RelocateRows(rows, a, c);
    forall i | 0 <= i < |rows|
      ensures twice[i] == once[i] <==> !RowNames(rows[i], b)
    {
      RowTwice(rows[i], a, b, c);
    }
    if !exists i :: 0 <= i < |rows| && RowNames(rows[i], b) {
      assert twice == once;
    }
  }

  /** One member of a contract, moved. */
  function RelocateMember(key: string, v: Json, from: string, url: string): Json {
    if key == "mission_issuer" then MoveIssuerValue(v, from, url)
    else if key == "subjects" then MoveSubjectsValue(v, from, url)
    else v
  }

  lemma RelocatedIssuerMembers(o: Rec<Json>, from: string, url: string)
    ensures var out := RelocateIssuer(o, from, url);
            && |out| == |o|
            && forall i :: 0 <= i < |o| ==>
                 out[i] == (o[i].0, if o[i].0 == "mission_issuer" then MoveIssuerValue(o[i].1, from, url) else o[i].1)
  {
    forall i | 0 <= i < |o| && o[i].0 == "mission_issuer"
      ensures OwnValue(o, "mission_issuer") == Some(o[i].1)
    {
      OwnValueAt(o, i);
    }
  }

  lemma RelocatedSubjectsMembers(o: Rec<Json>, from: string, url: string)
    ensures var out := RelocateSubjects(o, from, url);
            && |out| == |o|
            && forall i :: 0 <= i < |o| ==>
                 out[i] == (o[i].0, if o[i].0 == "subjects" then MoveSubjectsValue(o[i].1, from, url) else o[i].1)
  {
    forall i | 0 <= i < |o| && o[i].0 == "subjects"
      ensures OwnValue(o, "subjects") == Some(o[i].1)
    {
      OwnValueAt(o, i);
    }
  }

  /** A contract is relocated member by member, in place. */
  lemma RelocatedMembers(contract: Json, from: string, url: string)
    requires contract.Obj?
    ensures var out := RelocateContract(contract, from, url);
            && out.Obj? && |out.members| == |contract.members|
            && forall i :: 0 <= i < |out.members| ==>
                 out.members[i] == (contract.members[i].0,
                                    RelocateMember(contract.members[i].0, contract.members[i].1, from, url))
  {
    RelocatedIssuerMembers(contract.members, from, url);
    RelocatedSubjectsMembers(RelocateIssuer(contract.members, from, url), from, url);
  }

  lemma {:induction false} IssuerValueTwice(v: Json, a: string, b: string, c: string)
    requires a != b && b != c
    ensures MoveIssuerValue(MoveIssuerValue(v, a, b), b, c) == MoveIssuerValue(v, a, c) <==> v != Str(b)
  {
  }

  lemma {:induction false} SubjectsValueTwice(v: Json, a: string, b: string, c: string)
    requires a != b && b != c
    ensures MoveSubjectsValue(MoveSubjectsValue(v, a, b), b, c) == MoveSubjectsValue(v, a, c) <==>
            !(v.Arr? && exists i :: 0 <= i < |v.items| && RowNames(v.items[i], b))
  {
    if v.Arr? {
      RowsTwice(v.items, a, b, c);
    }
  }

  lemma {:induction false} MemberTwice(key: string, v: Json, a: string, b: string, c: string)
    requires a != b && b != c
    ensures RelocateMember(key, RelocateMember(key, v, a, b), b, c) == RelocateMember(key, v, a, c) <==>
            !MemberNames(key, v, b)
  {
    if key == "mission_issuer" {
      IssuerValueTwice(v, a, b, c);
      KeysDiffer();
    } else if key == "subjects" {
      SubjectsValueTwice(v, a, b, c);
    }
  }

  lemma KeysDiffer()
    ensures "mission_issuer" != "subjects"
  {
    assert |"mission_issuer"| == 14 && |"subjects"| == 8;
  }

  lemma ContractTwice(contract: Json, a: string, b: string, c: string)
    requires a != b && b != c
    ensures RelocateContract(RelocateContract(contract, a, b), b, c) == RelocateContract(contract, a, c) <==>
            !ContractNames(contract, b)
  {
    if contract.Obj? {
      var mid := RelocateContract(contract, a, b);
      RelocatedMembers(contract, a, b);
      RelocatedMembers(mid, b, c);
      RelocatedMembers(contract, a, c);
      var twice, once := RelocateContract(mid, b, c).members, RelocateContract(contract, a, c).members;
      forall i | 0 <= i < |contract.members|
        ensures twice[i] == once[i] <==> !MemberNames(contract.members[i].0, contract.members[i].1, b)
      {
        MemberTwice(contract.members[i].0, contract.members[i].1, a, b, c);
      }
      if !ContractNames(contract, b) {
        assert twice == once;
      }
    }
  }

  lemma RelocatingToItself(contract: Json, from: string)
    ensures RelocateContract(contract, from, from) == contract
  {
    if contract.Obj? {
      RelocatedMembers(contract, from, from);
      forall i | 0 <= i < |contract.members|
        ensures RelocateMember(contract.members[i].0, contract.members[i].1, from, from) == contract.members[i].1
      {
        if contract.members[i].1.Arr? {
          RowsToThemselves(contract.members[i].1.items, from);
        }
      }
      assert RelocateContract(contract, from, from).members == contract.members;
    }
  }

  lemma RowToItself(row: Json, from: string)
    ensures RelocateRow(row, from, from) == row
  {
    if NamesAnIssuer(row) {
      var to := OwnValue(row.members, "to").value.members;
      PutOwn(to, "iss");
      assert MoveTarget(to, from, from) == to;
      PutOwn(row.members, "to");
    }
  }

  lemma RowsToThemselves(rows: seq<Json>, from: string)
    ensures RelocateRows(rows, from, from) == rows
  {
    forall i | 0 <= i < |rows|
      ensures RelocateRows(rows, from, from)[i] == rows[i]
    {
      RowToItself(rows[i], from);
    }
  }

  lemma PutOwn<V>(r: Rec<V>, key: string)
    requires HasKey(r, key)
    ensures Put(r, key, OwnValue(r, key).value) == r
  {
    forall i | 0 <= i < |r| && r[i].0 == key
      ensures r[i].1 == OwnValue(r, key).value
    {
      OwnValueAt(r, i);
    }
  }

  /**
   * Relocating to `b` and then to `c` comes to relocating straight to `c`,
   * exactly unless both moves go somewhere and a place they move already named
   * `b`. With `c == b` that is idempotence; with `c` the configuration's own
   * issuer, it says when moving back restores the configuration.
   */
  lemma RelocatingTwice(config: Config, b: string, c: string)
    ensures RelocateMissionIssuer(RelocateMissionIssuer(config, b), c) == RelocateMissionIssuer(config, c) <==>
            config.missionIssuer == b || b == c || !Names(config, b)
    ensures RelocateMissionIssuer(config, config.missionIssuer) == config
  {
    var a := config.missionIssuer;
    if a != b && b != c {
      ContractTwice(config.mappingContract, a, b, c);
      RoutesTwice(config.routes, a, b, c);
      if a == c {
        RelocatingToItself(config.mappingContract, a);
        RoutesToThemselves(config.routes, a);
      }
    }
  }

  /** A contract at the Mission issuer `a`, one of whose subjects maps to the issuer `b`. */
  function OneElsewhere(): Document {
    OneOfEach().(subjects := [SubjectRow(Identity("e", "s"), Identity("a", "s"), true),
                              SubjectRow(Identity("e", "t"), Identity("b", "t"), true)])
  }

  lemma {:induction false} WrittenSubjectNames(row: SubjectRow)
    ensures RowNames(WrittenSubject(row), row.to.iss)
  {
    NamesAreDistinct();
    var to := [Str(row.to.iss), Str(row.to.id)];
    var from := [Str(row.from.iss), Str(row.from.id)];
    OwnValueAt(RecordOf(SUBJECT_NAMES, to), 0);
    OwnValueAt(WrittenSubject(row).members, 1);
  }

  lemma {:induction false} WrittenNames(doc: Document, i: nat)
    requires i < |doc.subjects|
    ensures ContractNames(Written(doc), doc.subjects[i].to.iss)
  {
    TopLevelIsDistinct();
    TopLevelNames();
    WrittenSubjectNames(doc.subjects[i]);
    var member := Written(doc).members[5];
    assert member == ("subjects", Arr(WrittenSubjects(doc.subjects)));
    assert RowNames(member.1.items[i], doc.subjects[i].to.iss);
    assert MemberNames(member.0, member.1, doc.subjects[i].to.iss);
  }

  lemma {:induction false} OneElsewhereLoads(env: Env)
    requires env.calendarAccepts(DATE)
    ensures Parse(Written(OneElsewhere()), env) == Ok(OneElsewhere())
  {
    DateIsDated();
    assert Identity("e", "s") != Identity("e", "t") by {
      assert "s"[0] != "t"[0];
    }
    WrittenLoads(OneElsewhere(), env);
  }

  /** A configuration one of whose moved places already names `url` is not restored by moving it there and back. */
  lemma {:induction false} MovingBackLoses(config: Config, url: string)
    requires config.missionIssuer != url && Names(config, url)
    ensures RelocateMissionIssuer(RelocateMissionIssuer(config, url), config.missionIssuer) != config
  {
    RelocatingTwice(config, url, config.missionIssuer);
  }

  /**
   * The condition is needed: a configuration whose contract the strict loader
   * accepts, moved to an issuer a subject already maps to, is not restored by
   * moving it back.
   */
  lemma {:induction false} MovingBackMayNotRestore(env: Env) returns (config: Config)
    requires env.calendarAccepts(DATE)
    ensures Parse(config.mappingContract, env).Ok? && config.missionIssuer == "a"
    ensures RelocateMissionIssuer(RelocateMissionIssuer(config, "b"), "a") != config
  {
    config := Config("a", Written(OneElsewhere()), [], Null);
    OneElsewhereLoads(env);
    WrittenNames(OneElsewhere(), 1);
    MovingBackLoses(config, "b");
  }

  lemma RoutesToThemselves(routes: seq<Route>, from: string)
    ensures RelocateRoutes(routes, from, from) == routes
  {
    forall i | 0 <= i < |routes|
      ensures RelocateRoutes(routes, from, from)[i] == routes[i]
    {
    }
  }

  lemma RoutesTwice(routes: seq<Route>, a: string, b: string, c: string)
    requires a != b && b != c
    ensures RelocateRoutes(RelocateRoutes(routes, a, b), b, c) == RelocateRoutes(routes, a, c) <==>
            !exists i :: 0 <= i < |routes| && routes[i].missionBound && routes[i].issuer == b
  {
    var twice, once := RelocateRoutes(RelocateRoutes(routes, a, b), b, c), RelocateRoutes(routes, a, c);
    assert forall i :: 0 <= i < |routes| ==>
           (twice[i] == once[i] <==> !(routes[i].missionBound && routes[i].issuer == b));
    if !exists i :: 0 <= i < |routes| && routes[i].missionBound && routes[i].issuer == b {
      assert twice == once;
    }
  }
}
