/** JSON values as the strict loaders read them, and the canonical-object digest. */
module Json {
  import opened Wrappers

  /** An object's members stand in the order of its canonical form (RFC 8785, section 3.2.3). */
  datatype Json =
    | Null
    | Bool(b: bool)
    | Num(n: real)
    | Str(s: string)
    | Arr(items: seq<Json>)
    | Obj(members: Rec<Json>)

  predicate IsInteger(n: real) {
    n == n.Floor as real
  }

  /**
   * The digest of a document's canonical bytes, taken as collision free: a
   * digest stands for exactly one document.
   */
  datatype Digest = CanonicalDigest(document: Json)

  /** Where in a document a loader stopped. */
  datatype Step = Member(name: string) | Index(i: nat)
  type Place = seq<Step>

  datatype Fault =
    | NotAnObject(at: Place)
    | UnknownMember(at: Place, name: string)
    | MissingMember(at: Place, name: string)
    | NotText(at: Place)
    | NotInstant(at: Place)
    | NotAnArray(at: Place)
    | NotAnInteger(at: Place)
    | BadStatus(at: Place)
    | Ambiguous(at: Place)
    | NotActions(at: Place)
    | BadContract(at: Place)
    | Unsupported(at: Place)

  /** The first of `r`'s keys that `names` does not list. */
  function UnknownKey<V>(r: seq<(string, V)>, names: seq<string>): (k: Option<string>)
    ensures k.None? <==> forall i :: 0 <= i < |r| ==> r[i].0 in names
  {
    if r == [] then None
    else if r[0].0 !in names then Some(r[0].0)
    else
      var k := UnknownKey(r[1..], names);
      assert forall i :: 1 <= i < |r| ==> r[i] == r[1..][i - 1];
      k
  }

  /** The first of `names` that `r` does not hold. */
  function MissingKey<V>(r: seq<(string, V)>, names: seq<string>): (k: Option<string>)
    ensures k.None? <==> forall n :: n in names ==> HasKey(r, n)
  {
    if names == [] then None
    else if !HasKey(r, names[0]) then Some(names[0])
    else MissingKey(r, names[1..])
  }

  /** An object with exactly the members `names`. */
  function ObjectOf(v: Json, at: Place, names: seq<string>): (r: Result<Rec<Json>, Fault>)
    ensures r.Ok? <==> v.Obj? && (forall i :: 0 <= i < |v.members| ==> v.members[i].0 in names) &&
                       (forall n :: n in names ==> HasKey(v.members, n))
    ensures r.Ok? ==> r.value == v.members
  {
    if !v.Obj? then Err(NotAnObject(at))
    else if UnknownKey(v.members, names).Some? then Err(UnknownMember(at, UnknownKey(v.members, names).value))
    else if MissingKey(v.members, names).Some? then Err(MissingMember(at, MissingKey(v.members, names).value))
    else Ok(v.members)
  }

  /** The member `name`, which `ObjectOf` has found; an absent one reads as null. */
  function Get(o: Rec<Json>, name: string): Json {
    var v := OwnValue(o, name);
    if v.Some? then v.value else Null
  }

  /** The member `name` of any value: null where it is no object or holds none. */
  function Stated(v: Json, name: string): Json {
    if v.Obj? && OwnValue(v.members, name).Some? then OwnValue(v.members, name).value else Null
  }

  function Text(v: Json, at: Place): (r: Result<string, Fault>)
    ensures r.Ok? <==> v.Str? && v.s != ""
  {
    if v.Str? && v.s != "" then Ok(v.s) else Err(NotText(at))
  }
}
