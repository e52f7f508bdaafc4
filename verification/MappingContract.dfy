/** The versioned mapping contract and its strict loader. */
module MappingContract {
  import opened Wrappers
  import opened Json
  import opened ResourceContracts

  /** An issuer-qualified identity: a subject's `sub` or a client's `client_id` under its issuer. */
  datatype Identity = Identity(iss: string, id: string)

  datatype SubjectRow = SubjectRow(from: Identity, to: Identity, active: bool)
  datatype ClientRow = ClientRow(from: Identity, to: string, active: bool)
  datatype Provenance = Provenance(source: string, exportId: string, exportedAt: string)

  /** What one scope value maps to: its actions, and the contract it grants them under or none. */
  datatype MappedScope = MappedScope(actions: seq<string>, contract: Option<ContractRef>)

  datatype Document = Document(
    contractId: string, version: nat, issuedAt: string, provenance: Provenance, missionIssuer: string,
    subjects: seq<SubjectRow>, clients: seq<ClientRow>,
    resource: string, scopes: Rec<Rec<MappedScope>>, delegates: Rec<nat>)

  /**
   * What the loader reads besides the document: the declarations, and which date-times the platform's calendar accepts.
   */
  datatype Env = Env(contracts: Declarations, calendarAccepts: string -> bool)

  const TOP_LEVEL: seq<string> := ["contract_id", "version", "issued_at", "provenance", "mission_issuer", "subjects",
                                   "clients", "scopes", "delegates", "instance", "failure"]

  // ---- Leaf values ----

  predicate AllDigits(s: string) {
    forall i :: 0 <= i < |s| ==> IsDigit(s[i])
  }

  predicate IsZone(z: string) {
    z == "Z" || (|z| == 6 && z[0] in "+-" && AllDigits(z[1..3]) && z[3] == ':' && AllDigits(z[4..6]))
  }

  /** `date-time` of RFC 3339, section 5.6, in upper case. */
  predicate IsDateTime(s: string) {
    && |s| >= 20
    && AllDigits(s[0..4]) && s[4] == '-' && AllDigits(s[5..7]) && s[7] == '-' && AllDigits(s[8..10]) && s[10] == 'T'
    && AllDigits(s[11..13]) && s[13] == ':' && AllDigits(s[14..16]) && s[16] == ':' && AllDigits(s[17..19])
    && exists zone :: 19 <= zone <= |s| && IsZone(s[zone..]) &&
         (zone == 19 || (zone >= 21 && s[19] == '.' && AllDigits(s[20..zone])))
  }

  /** Nothing, or a point and at least one digit. */
  predicate IsFraction(s: string) {
    s == "" || (|s| >= 2 && s[0] == '.' && AllDigits(s[1..]))
  }

  /** `Z`, or a sign and two digits either side of a colon. */
  ghost predicate IsOffset(zone: string) {
    zone == "Z" ||
    exists sign: char, hour: string, minute: string ::
      zone == [sign] + hour + ":" + minute && sign in "+-" && |hour| == |minute| == 2 && AllDigits(hour) &&
      AllDigits(minute)
  }

  lemma ZoneIsOffset(z: string)
    ensures IsZone(z) <==> IsOffset(z)
  {
    if |z| == 6 && z[3] == ':' {
      assert z == [z[0]] + z[1..3] + ":" + z[4..6];
    }
    forall sign: char, hour: string, minute: string | z == [sign] + hour + ":" + minute && |hour| == |minute| == 2
      ensures |z| == 6 && z[0] == sign && z[1..3] == hour && z[3] == ':' && z[4..6] == minute
    {
    }
  }

  /** A text in the form of the grammar's productions. */
  ghost predicate IsProduced(s: string, date: seq<string>, time: seq<string>, fraction: string, zone: string) {
    && |date| == 3 && |time| == 3
    && |date[0]| == 4 && |date[1]| == |date[2]| == |time[0]| == |time[1]| == |time[2]| == 2
    && (forall i :: 0 <= i < 3 ==> AllDigits(date[i]) && AllDigits(time[i]))
    && IsFraction(fraction) && IsOffset(zone)
    && s == date[0] + "-" + date[1] + "-" + date[2] + "T" + time[0] + ":" + time[1] + ":" + time[2] + fraction + zone
  }

  lemma DateTimeProduces(s: string, z: nat)
    requires 19 <= z <= |s| && IsZone(s[z..]) && IsFraction(s[19..z])
    requires AllDigits(s[0..4]) && s[4] == '-' && AllDigits(s[5..7]) && s[7] == '-' && AllDigits(s[8..10])
    requires s[10] == 'T' && AllDigits(s[11..13]) && s[13] == ':' && AllDigits(s[14..16]) && s[16] == ':'
    requires AllDigits(s[17..19])
    ensures IsProduced(s, [s[0..4], s[5..7], s[8..10]], [s[11..13], s[14..16], s[17..19]], s[19..z], s[z..])
  {
    ZoneIsOffset(s[z..]);
    assert s[..10] == s[0..4] + "-" + s[5..7] + "-" + s[8..10];
    assert s[11..19] == s[11..13] + ":" + s[14..16] + ":" + s[17..19];
    assert s == s[..10] + "T" + s[11..19] + s[19..z] + s[z..];
  }

  lemma ProducedIsDateTime(s: string, date: seq<string>, time: seq<string>, fraction: string, zone: string)
    requires IsProduced(s, date, time, fraction, zone)
    ensures IsDateTime(s)
  {
    ZoneIsOffset(zone);
    assert s[0..4] == date[0] && s[5..7] == date[1] && s[8..10] == date[2];
    assert s[11..13] == time[0] && s[14..16] == time[1] && s[17..19] == time[2];
    var z := 19 + |fraction|;
    assert s[z..] == zone && s[19..z] == fraction;
    assert fraction != "" ==> s[20..z] == fraction[1..];
  }

  /** The positions tested are those of the grammar's productions. */
  lemma DateTimeIsProduced(s: string)
    ensures IsDateTime(s) <==>
            exists date, time, fraction, zone :: IsProduced(s, date, time, fraction, zone)
  {
    if IsDateTime(s) {
      var z :| 19 <= z <= |s| && IsZone(s[z..]) &&
          (z == 19 || (z >= 21 && s[19] == '.' && AllDigits(s[20..z])));
      assert s[19..z] == "" || s[19..z][1..] == s[20..z];
      DateTimeProduces(s, z);
    }
    forall date, time, fraction, zone | IsProduced(s, date, time, fraction, zone)
      ensures IsDateTime(s)
    {
      ProducedIsDateTime(s, date, time, fraction, zone);
    }
  }

  function Instant(v: Json, at: Place, env: Env): Result<string, Fault> {
    var s :- Text(v, at);
    if IsDateTime(s) && env.calendarAccepts(s) then Ok(s) else Err(NotInstant(at))
  }

  function Status(v: Json, at: Place): Result<bool, Fault> {
    if v == Str("active") then Ok(true) else if v == Str("disabled") then Ok(false) else Err(BadStatus(at))
  }

  function IntegerAtLeast(v: Json, least: int, at: Place): (r: Result<nat, Fault>)
    requires least >= 0
    ensures r.Ok? ==> r.value >= least
  {
    if v.Num? && IsInteger(v.n) && v.n.Floor >= least then Ok(v.n.Floor) else Err(NotAnInteger(at))
  }

  function Items(v: Json, at: Place): Result<seq<Json>, Fault> {
    if v.Arr? then Ok(v.items) else Err(NotAnArray(at))
  }

  function Members(v: Json, at: Place): Result<Rec<Json>, Fault> {
    if v.Obj? then Ok(v.members) else Err(NotAnObject(at))
  }

  // ---- Identity rows ----

  function IdentityIn(iss: Json, id: Json, at: Place, idName: string): Result<Identity, Fault> {
    var issText :- Text(iss, at + [Member("iss")]);
    var idText :- Text(id, at + [Member(idName)]);
    Ok(Identity(issText, idText))
  }

  function SubjectFrom(fromId: Result<Identity, Fault>, toId: Result<Identity, Fault>, active: Result<bool, Fault>)
    : Result<SubjectRow, Fault>
  {
    var from :- fromId;
    var to :- toId;
    var status :- active;
    Ok(SubjectRow(from, to, status))
  }

  function SubjectOf(fromObject: Result<Rec<Json>, Fault>, toObject: Result<Rec<Json>, Fault>, status: Json, at: Place)
    : Result<SubjectRow, Fault>
  {
    var from :- fromObject;
    var to :- toObject;
    SubjectFrom(IdentityIn(Get(from, "iss"), Get(from, "sub"), at + [Member("from")], "sub"),
                IdentityIn(Get(to, "iss"), Get(to, "sub"), at + [Member("to")], "sub"),
                Status(status, at + [Member("status")]))
  }

  function SubjectIn(from: Json, to: Json, status: Json, at: Place): Result<SubjectRow, Fault> {
    SubjectOf(ObjectOf(from, at + [Member("from")], ["iss", "sub"]), ObjectOf(to, at + [Member("to")], ["iss", "sub"]),
              status, at)
  }

  function ParseSubjectRow(v: Json, at: Place): Result<SubjectRow, Fault> {
    var row :- ObjectOf(v, at, ["from", "to", "status"]);
    SubjectIn(Get(row, "from"), Get(row, "to"), Get(row, "status"), at)
  }

  function ClientIn(fromRaw: Json, toRaw: Json, status: Json, at: Place): Result<ClientRow, Fault> {
    var fromObject :- ObjectOf(fromRaw, at + [Member("from")], ["iss", "client_id"]);
    var from :- IdentityIn(Get(fromObject, "iss"), Get(fromObject, "client_id"), at + [Member("from")], "client_id");
    var to :- Text(toRaw, at + [Member("to")]);
    var active :- Status(status, at + [Member("status")]);
    Ok(ClientRow(from, to, active))
  }

  function ParseClientRow(v: Json, at: Place): Result<ClientRow, Fault> {
    var row :- ObjectOf(v, at, ["from", "to", "status"]);
    ClientIn(Get(row, "from"), Get(row, "to"), Get(row, "status"), at)
  }

  /**
   * Rows read in order, each by `parse`, refusing a second row for one
   * identity: the specification of the loader's two row loops.
   */
  function ParseRows<R>(rows: seq<Json>, at: Place, parse: (Json, Place) -> Result<R, Fault>, from: R -> Identity)
    : (r: Result<seq<R>, Fault>)
    ensures r.Ok? ==> |r.value| == |rows|
  {
    if rows == [] then Ok([])
    else
      var n := |rows| - 1;
      var earlier :- ParseRows(rows[..n], at, parse, from);
      var row :- parse(rows[n], at + [Index(n)]);
      if exists j :: 0 <= j < n && from(earlier[j]) == from(row) then Err(Ambiguous(at + [Index(n)]))
      else Ok(earlier + [row])
  }

  /** The row loop: each identity is remembered, and met again it refuses the document. */
  method ParseRowsInOrder<R>(rows: seq<Json>, at: Place, parse: (Json, Place) -> Result<R, Fault>, from: R -> Identity)
    returns (r: Result<seq<R>, Fault>)
    ensures r == ParseRows(rows, at, parse, from)
  {
    var seen: set<Identity> := {};
    var parsed: seq<R> := [];
    for i := 0 to |rows|
      invariant |parsed| == i
      invariant ParseRows(rows[..i], at, parse, from) == Ok(parsed)
      invariant forall id :: id in seen <==> exists j :: 0 <= j < i && from(parsed[j]) == id
    {
      assert rows[..i + 1][..i] == rows[..i];
      var row := parse(rows[i], at + [Index(i)]);
      if row.Err? {
        RowsStopAt(rows, i + 1, at, parse, from);
        return Err(row.error);
      }
      if from(row.value) in seen {
        RowsStopAt(rows, i + 1, at, parse, from);
        return Err(Ambiguous(at + [Index(i)]));
      }
      seen := seen + {from(row.value)};
      parsed := parsed + [row.value];
      assert parsed[i] == row.value;
      assert forall j :: 0 <= j < i ==> parsed[j] == parsed[..i][j];
    }
    assert rows[..|rows|] == rows;
    return Ok(parsed);
  }

  /** A refusal at a row is the document's refusal, whatever rows follow. */
  lemma {:induction false} RowsStopAt<R>(rows: seq<Json>, i: nat, at: Place, parse: (Json, Place) -> Result<R, Fault>,
                                         from: R -> Identity)
    requires i <= |rows| && ParseRows(rows[..i], at, parse, from).Err?
    ensures ParseRows(rows, at, parse, from) == Err(ParseRows(rows[..i], at, parse, from).error)
  {
    if i == |rows| {
      assert rows[..i] == rows;
    } else {
      assert rows[..|rows| - 1][..i] == rows[..i];
      RowsStopAt(rows[..|rows| - 1], i, at, parse, from);
    }
  }

  /** Every row loads by itself. */
  ghost predicate EachLoads<R>(rows: seq<Json>, at: Place, parse: (Json, Place) -> Result<R, Fault>) {
    forall i :: 0 <= i < |rows| ==> parse(rows[i], at + [Index(i)]).Ok?
  }

  /** Two rows that load name one identity. */
  ghost predicate Repeats<R>(rows: seq<Json>, at: Place, parse: (Json, Place) -> Result<R, Fault>,
                             from: R -> Identity) {
    exists i, j :: 0 <= i < j < |rows| && parse(rows[i], at + [Index(i)]).Ok? && parse(rows[j], at + [Index(j)]).Ok? &&
      from(parse(rows[i], at + [Index(i)]).value) == from(parse(rows[j], at + [Index(j)]).value)
  }

  /** Accepted rows: each is its own row as read, and no two name one identity. */
  lemma {:induction false} RowsLoaded<R>(rows: seq<Json>, at: Place, parse: (Json, Place) -> Result<R, Fault>,
                                         from: R -> Identity)
    requires ParseRows(rows, at, parse, from).Ok?
    ensures forall i :: 0 <= i < |rows| ==>
            parse(rows[i], at + [Index(i)]) == Ok(ParseRows(rows, at, parse, from).value[i])
    ensures var out := ParseRows(rows, at, parse, from).value;
            forall i, j :: 0 <= i < j < |out| ==> from(out[i]) != from(out[j])
  {
    if rows != [] {
      var n := |rows| - 1;
      RowsLoaded(rows[..n], at, parse, from);
      var earlier := ParseRows(rows[..n], at, parse, from).value;
      var out := ParseRows(rows, at, parse, from).value;
      forall i | 0 <= i < |rows|
        ensures parse(rows[i], at + [Index(i)]) == Ok(out[i])
      {
        assert i < n ==> rows[..n][i] == rows[i] && out[i] == earlier[i];
      }
    }
  }

  lemma {:induction false} UnambiguousRowsLoad<R>(rows: seq<Json>, at: Place, parse: (Json, Place) -> Result<R, Fault>,
                                                  from: R -> Identity)
    requires EachLoads(rows, at, parse) && !Repeats(rows, at, parse, from)
    ensures ParseRows(rows, at, parse, from).Ok?
  {
    if rows != [] {
      var n := |rows| - 1;
      assert forall i :: 0 <= i < n ==> rows[..n][i] == rows[i];
      UnambiguousRowsLoad(rows[..n], at, parse, from);
      RowsLoaded(rows[..n], at, parse, from);
    }
  }

  /** The rows load exactly when each row loads and no issuer-qualified identity repeats. */
  lemma RowsLoadIffUnambiguous<R>(rows: seq<Json>, at: Place, parse: (Json, Place) -> Result<R, Fault>,
                                  from: R -> Identity)
    ensures ParseRows(rows, at, parse, from).Ok? <==> EachLoads(rows, at, parse) && !Repeats(rows, at, parse, from)
  {
    if ParseRows(rows, at, parse, from).Ok? {
      RowsLoaded(rows, at, parse, from);
    } else if EachLoads(rows, at, parse) && !Repeats(rows, at, parse, from) {
      UnambiguousRowsLoad(rows, at, parse, from);
    }
  }

  // ---- Records ----

  /** A record's members read in order, each by `parse`: the specification of the loader's record loops. */
  function ParseMembers<A>(r: Rec<Json>, at: Place,
                           parse: (Json, Place) -> Result<A, Fault>): (out: Result<Rec<A>, Fault>)
    ensures out.Ok? ==> |out.value| == |r| && forall i :: 0 <= i < |r| ==>
                          out.value[i].0 == r[i].0 && parse(r[i].1, at + [Member(r[i].0)]) == Ok(out.value[i].1)
  {
    if r == [] then Ok([])
    else
      var n := |r| - 1;
      var earlier :- ParseMembers(r[..n], at, parse);
      var last :- parse(r[n].1, at + [Member(r[n].0)]);
      assert DistinctKeys(earlier + [(r[n].0, last)]);
      Ok(earlier + [(r[n].0, last)])
  }

  lemma {:induction false} MembersStopAt<A>(r: Rec<Json>, i: nat, at: Place, parse: (Json, Place) -> Result<A, Fault>)
    requires i <= |r| && ParseMembers(r[..i], at, parse).Err?
    ensures ParseMembers(r, at, parse) == Err(ParseMembers(r[..i], at, parse).error)
  {
    if i == |r| {
      assert r[..i] == r;
    } else {
      assert r[..|r| - 1][..i] == r[..i];
      MembersStopAt(r[..|r| - 1], i, at, parse);
    }
  }

  /** The record loop: a fresh record filled member by member. */
  method FillRecord<A>(r: Rec<Json>, at: Place, parse: (Json, Place) -> Result<A, Fault>)
    returns (out: Result<Rec<A>, Fault>)
    ensures out == ParseMembers(r, at, parse)
  {
    var filled: Rec<A> := [];
    for i := 0 to |r|
      invariant ParseMembers(r[..i], at, parse) == Ok(filled)
    {
      assert r[..i + 1][..i] == r[..i];
      var value := parse(r[i].1, at + [Member(r[i].0)]);
      if value.Err? {
        MembersStopAt(r, i + 1, at, parse);
        return Err(value.error);
      }
      filled := ParseMembers(r[..i + 1], at, parse).value;
    }
    assert r[..|r|] == r;
    return Ok(filled);
  }

  function ActionsOf(v: Json, at: Place): (r: Result<seq<string>, Fault>) {
    if v.Arr? && v.items != [] && forall i :: 0 <= i < |v.items| ==> v.items[i].Str? && v.items[i].s != ""
    then Ok(seq(|v.items|, i requires 0 <= i < |v.items| => if v.items[i].Str? then v.items[i].s else ""))
    else Err(NotActions(at))
  }

  /** One scope value: an action list, or `{actions, resource_contract}` under a declared contract. */
  function ParseScopeValue(v: Json, at: Place, resource: string,
                           contracts: Declarations): (r: Result<MappedScope, Fault>)
    ensures r.Ok? && r.value.contract.Some? ==> WellFormed(r.value.contract.value)
  {
    if v.Arr? then
      var actions :- ActionsOf(v, at);
      Ok(MappedScope(actions, None))
    else
      var o :- Members(v, at);
      if UnknownKey(o, ["actions", "resource_contract"]).Some? then
        Err(UnknownMember(at, UnknownKey(o, ["actions", "resource_contract"]).value))
      else
        var stated := OwnValue(o, "actions");
        var actions :- ActionsOf(if stated.Some? then stated.value else Null, at + [Member("actions")]);
        var contract := OwnValue(o, "resource_contract");
        if contract.None? then Err(MissingMember(at, "resource_contract"))
        else
          var ref := RefOf(contract.value);
          if ref.None? || ViolationOf(contracts, ref.value, resource, actions, None).Some?
          then Err(BadContract(at + [Member("resource_contract")]))
          else Ok(MappedScope(actions, ref))
  }

  function ParseScopeValues(v: Json, at: Place, resource: string,
                            contracts: Declarations): Result<Rec<MappedScope>, Fault> {
    var o :- Members(v, at);
    ParseMembers(o, at, (value, place) => ParseScopeValue(value, place, resource, contracts))
  }

  function ParseDelegate(v: Json, at: Place): Result<nat, Fault> {
    var o :- ObjectOf(v, at, ["max_depth"]);
    IntegerAtLeast(Get(o, "max_depth"), 0, at + [Member("max_depth")])
  }

  // ---- The document ----

  const SubjectsAt: Place := [Member("subjects")]
  const ClientsAt: Place := [Member("clients")]
  const IssuersAt: Place := [Member("scopes"), Member("issuers")]

  function ParseSubjects(v: Json): Result<seq<SubjectRow>, Fault> {
    var rows :- Items(v, SubjectsAt);
    ParseRows(rows, SubjectsAt, ParseSubjectRow, (row: SubjectRow) => row.from)
  }

  function ParseClients(v: Json): Result<seq<ClientRow>, Fault> {
    var rows :- Items(v, ClientsAt);
    ParseRows(rows, ClientsAt, ParseClientRow, (row: ClientRow) => row.from)
  }

  function ParseScopes(v: Json, contracts: Declarations): Result<(string, Rec<Rec<MappedScope>>), Fault> {
    var o :- ObjectOf(v, [Member("scopes")], ["resource", "issuers"]);
    var resource :- Text(Get(o, "resource"), [Member("scopes"), Member("resource")]);
    var issuers :- Members(Get(o, "issuers"), IssuersAt);
    var scopes :- ParseMembers(issuers, IssuersAt,
                               (value, place) => ParseScopeValues(value, place, resource, contracts));
    Ok((resource, scopes))
  }

  /** The members read last. */
  datatype Tail = Tail(delegates: Rec<nat>, contractId: string, issuedAt: string, provenance: Provenance)

  function ParseProvenance(provenance: Rec<Json>, env: Env): Result<Provenance, Fault> {
    var source :- Text(Get(provenance, "source"), [Member("provenance"), Member("source")]);
    var exportId :- Text(Get(provenance, "export_id"), [Member("provenance"), Member("export_id")]);
    var exportedAt :- Instant(Get(provenance, "exported_at"), [Member("provenance"), Member("exported_at")], env);
    Ok(Provenance(source, exportId, exportedAt))
  }

  function ParseTexts(depths: Rec<nat>, contractId: Json, issuedAt: Json, provenance: Rec<Json>,
                      env: Env): Result<Tail, Fault>
  {
    var id :- Text(contractId, [Member("contract_id")]);
    var issued :- Instant(issuedAt, [Member("issued_at")], env);
    var origin :- ParseProvenance(provenance, env);
    Ok(Tail(depths, id, issued, origin))
  }

  function ParseTail(delegates: Json, instance: Json, failure: Json, contractId: Json, issuedAt: Json,
                     provenance: Rec<Json>, env: Env)
    : Result<Tail, Fault>
  {
    var members :- Members(delegates, [Member("delegates")]);
    var depths :- ParseMembers(members, [Member("delegates")], ParseDelegate);
    var flags :- ObjectOf(instance, [Member("instance")], ["supported", "required"]);
    if Get(flags, "supported") != Bool(false) || Get(flags, "required") != Bool(false)
    then Err(Unsupported([Member("instance")]))
    else if failure != Str("mission_binding_failed") then Err(Unsupported([Member("failure")]))
    else ParseTexts(depths, contractId, issuedAt, provenance, env)
  }

  /** The members after the subject rows. */
  datatype Remainder = Remainder(clients: seq<ClientRow>, resource: string, scopes: Rec<Rec<MappedScope>>, tail: Tail)

  /** A contract's eleven members, as read. */
  datatype Root = Root(contractId: Json, version: Json, issuedAt: Json, provenance: Json, missionIssuer: Json,
                       subjects: Json,
                       clients: Json, scopes: Json, delegates: Json, instance: Json, failure: Json)

  function ReadRoot(o: Rec<Json>): Root {
    Root(Get(o, "contract_id"), Get(o, "version"), Get(o, "issued_at"), Get(o, "provenance"), Get(o, "mission_issuer"),
         Get(o, "subjects"), Get(o, "clients"), Get(o, "scopes"), Get(o, "delegates"), Get(o, "instance"),
             Get(o, "failure"))
  }

  function ParseRemainder(root: Root, provenance: Rec<Json>, env: Env): Result<Remainder, Fault> {
    var clients :- ParseClients(root.clients);
    var scopes :- ParseScopes(root.scopes, env.contracts);
    var tail :- ParseTail(root.delegates, root.instance, root.failure, root.contractId, root.issuedAt, provenance, env);
    Ok(Remainder(clients, scopes.0, scopes.1, tail))
  }

  function Assembled(version: nat, missionIssuer: Result<string, Fault>, subjects: Result<seq<SubjectRow>, Fault>,
                     remainder: Result<Remainder, Fault>): Result<Document, Fault>
  {
    var issuer :- missionIssuer;
    var rows :- subjects;
    var rest :- remainder;
    Ok(Document(rest.tail.contractId, version, rest.tail.issuedAt, rest.tail.provenance, issuer, rows, rest.clients,
                rest.resource, rest.scopes, rest.tail.delegates))
  }

  function ParseRoot(root: Root, env: Env): Result<Document, Fault> {
    var version :- IntegerAtLeast(root.version, 1, [Member("version")]);
    var provenance :- ObjectOf(root.provenance, [Member("provenance")], ["source", "export_id", "exported_at"]);
    Assembled(version, Text(root.missionIssuer, [Member("mission_issuer")]), ParseSubjects(root.subjects),
              ParseRemainder(root, provenance, env))
  }

  /** The strict loader. */
  function Parse(raw: Json, env: Env): Result<Document, Fault> {
    var members :- ObjectOf(raw, [], TOP_LEVEL);
    ParseRoot(ReadRoot(members), env)
  }

  ghost predicate DistinctSubjects(rows: seq<SubjectRow>) {
    forall i, j :: 0 <= i < j < |rows| ==> rows[i].from != rows[j].from
  }

  ghost predicate DistinctClients(rows: seq<ClientRow>) {
    forall i, j :: 0 <= i < j < |rows| ==> rows[i].from != rows[j].from
  }

  /** Each contract a scope value states is a well-formed reference. */
  ghost predicate StatesWellFormed(scopes: Rec<Rec<MappedScope>>) {
    forall i, j :: 0 <= i < |scopes| && 0 <= j < |scopes[i].1| && scopes[i].1[j].1.contract.Some? ==>
      WellFormed(scopes[i].1[j].1.contract.value)
  }

  /** What every accepted document satisfies. */
  ghost predicate Accepted(doc: Document) {
    && doc.version >= 1 && doc.missionIssuer != ""
    && DistinctSubjects(doc.subjects) && DistinctClients(doc.clients)
    && StatesWellFormed(doc.scopes)
  }

  lemma ParsedIsAccepted(raw: Json, env: Env)
    requires Parse(raw, env).Ok?
    ensures Accepted(Parse(raw, env).value)
  {
    RootIsAccepted(ReadRoot(raw.members), env);
  }

  lemma RootIsAccepted(root: Root, env: Env)
    requires ParseRoot(root, env).Ok?
    ensures Accepted(ParseRoot(root, env).value)
  {
    SubjectsDistinct(root.subjects);
    RemainderAccepted(root, root.provenance.members, env);
  }

  lemma SubjectsDistinct(v: Json)
    requires ParseSubjects(v).Ok?
    ensures DistinctSubjects(ParseSubjects(v).value)
  {
    RowsLoaded(v.items, SubjectsAt, ParseSubjectRow, (row: SubjectRow) => row.from);
  }

  lemma ClientsDistinct(v: Json)
    requires ParseClients(v).Ok?
    ensures DistinctClients(ParseClients(v).value)
  {
    RowsLoaded(v.items, ClientsAt, ParseClientRow, (row: ClientRow) => row.from);
  }

  lemma RemainderAccepted(root: Root, provenance: Rec<Json>, env: Env)
    requires ParseRemainder(root, provenance, env).Ok?
    ensures var rest := ParseRemainder(root, provenance, env).value;
            DistinctClients(rest.clients) && StatesWellFormed(rest.scopes)
  {
    ClientsDistinct(root.clients);
    ScopesWellFormed(root.scopes, env.contracts);
  }

  lemma ScopesWellFormed(v: Json, contracts: Declarations)
    requires ParseScopes(v, contracts).Ok?
    ensures StatesWellFormed(ParseScopes(v, contracts).value.1)
  {
    var (resource, scopes) := ParseScopes(v, contracts).value;
    var issuers := Get(v.members, "issuers").members;
    forall i, j | 0 <= i < |scopes| && 0 <= j < |scopes[i].1| && scopes[i].1[j].1.contract.Some?
      ensures WellFormed(scopes[i].1[j].1.contract.value)
    {
      var at := IssuersAt + [Member(issuers[i].0)];
      assert ParseScopeValues(issuers[i].1, at, resource, contracts) == Ok(scopes[i].1);
      var values := issuers[i].1.members;
      assert ParseScopeValue(values[j].1, at + [Member(values[j].0)], resource, contracts) == Ok(scopes[i].1[j].1);
    }
  }
}
