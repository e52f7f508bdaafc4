/**
 * Resource contract references, and which of them the deployment's
 * declarations support for a resource at a time.
 */
module ResourceContracts {
  import opened Wrappers
  import opened Json

  datatype ContractRef = ContractRef(id: string, version: string, digest: string)

  datatype VersionState = Current | Superseded(retainedUntil: real) | Retired

  datatype DeclaredVersion = DeclaredVersion(version: string, state: VersionState, digest: string,
                                             operations: seq<string>)

  /** `covers` is the set of resources the declaration's `resource` and `resource_match` admit. */
  datatype Declaration = Declaration(id: string, covers: string -> bool, versions: seq<DeclaredVersion>)

  type Declarations = seq<Declaration>

  datatype Violation = MalformedRef | NotConfigured | RetiredVersion | OutsideRetention | DigestChanged
    | ActionNotDefined

  predicate IsLetter(c: char) {
    'a' <= c <= 'z' || 'A' <= c <= 'Z'
  }

  predicate IsDigit(c: char) {
    '0' <= c <= '9'
  }

  /** The characters an absolute URI may hold: unreserved, reserved except `#`, and `%`. */
  predicate IsUriChar(c: char) {
    IsLetter(c) || '$' <= c <= ';' || '?' <= c <= '[' || c == '!' || c == '=' || c == ']' || c == '_' || c == '~'
  }

  /** Letters, digits and the marks unreserved and reserved, and the percent sign (RFC 3986, sections 2.1 to 2.3). */
  lemma UriCharExactly(c: char)
    ensures IsUriChar(c) <==> IsLetter(c) || IsDigit(c) || c in "-._~:/?[]@!$&'()*+,;=%"
  {
  }

  /** `scheme ":" rest`, in the characters of an absolute URI (RFC 3986, section 4.3). */
  predicate IsAbsoluteUri(s: string) {
    && (forall i :: 0 <= i < |s| ==> IsUriChar(s[i]))
    && exists colon :: 0 < colon < |s| && s[colon] == ':' && IsLetter(s[0]) &&
                       forall i :: 0 <= i < colon ==>
                           IsLetter(s[i]) || IsDigit(s[i]) || s[i] == '+' || s[i] == '-' || s[i] == '.'
  }

  predicate IsDigest(s: string) {
    && |s| == 51 && s[..8] == "sha-256:"
    && forall i :: 8 <= i < 51 ==> IsLetter(s[i]) || IsDigit(s[i]) || s[i] == '-' || s[i] == '_'
  }

  /** Letters, digits, `+`, `-` and `.`, a letter first. */
  ghost predicate IsScheme(s: string) {
    && s != "" && IsLetter(s[0])
    && forall i :: 0 <= i < |s| ==> IsLetter(s[i]) || IsDigit(s[i]) || s[i] in "+-."
  }

  /** Nothing but letters, digits, the unreserved and reserved marks, `#` apart, and the percent sign. */
  ghost predicate HoldsUriChars(s: string) {
    forall i :: 0 <= i < |s| ==> IsLetter(s[i]) || IsDigit(s[i]) || s[i] in "-._~:/?[]@!$&'()*+,;=%"
  }

  lemma UriCharsExactly(s: string)
    ensures HoldsUriChars(s) <==> forall i :: 0 <= i < |s| ==> IsUriChar(s[i])
  {
    forall i | 0 <= i < |s|
      ensures IsUriChar(s[i]) <==> IsLetter(s[i]) || IsDigit(s[i]) || s[i] in "-._~:/?[]@!$&'()*+,;=%"
    {
      UriCharExactly(s[i]);
    }
  }

  ghost predicate IsUriOf(s: string, scheme: string, rest: string) {
    s == scheme + ":" + rest && IsScheme(scheme)
  }

  lemma SchemeStands(s: string, scheme: string, rest: string)
    requires IsUriOf(s, scheme, rest) && forall i :: 0 <= i < |s| ==> IsUriChar(s[i])
    ensures IsAbsoluteUri(s)
  {
    var colon := |scheme|;
    assert forall i :: 0 <= i < colon ==> s[i] == scheme[i];
    assert 0 < colon < |s| && s[colon] == ':' && IsLetter(s[0]);
  }

  lemma SchemeOf(s: string) returns (scheme: string, rest: string)
    requires IsAbsoluteUri(s)
    ensures IsUriOf(s, scheme, rest)
  {
    var colon :| 0 < colon < |s| && s[colon] == ':' && IsLetter(s[0]) &&
      forall i :: 0 <= i < colon ==>
        IsLetter(s[i]) || IsDigit(s[i]) || s[i] == '+' || s[i] == '-' || s[i] == '.';
    scheme, rest := s[..colon], s[colon + 1..];
    assert s == scheme + ":" + rest;
  }

  /** A scheme, a colon and a rest. */
  lemma AbsoluteUriExactly(s: string)
    ensures IsAbsoluteUri(s) <==> HoldsUriChars(s) && exists scheme, rest :: IsUriOf(s, scheme, rest)
  {
    UriCharsExactly(s);
    if IsAbsoluteUri(s) {
      var scheme, rest := SchemeOf(s);
    } else if HoldsUriChars(s) {
      forall scheme, rest
        ensures !IsUriOf(s, scheme, rest)
      {
        if IsUriOf(s, scheme, rest) {
          SchemeStands(s, scheme, rest);
        }
      }
    }
  }

  /** The algorithm's name and 43 characters of base64url. */
  lemma DigestExactly(s: string)
    ensures IsDigest(s) <==>
            exists value ::
              && s == "sha-256:" + value && |value| == 43
              && forall i :: 0 <= i < 43 ==> IsLetter(value[i]) || IsDigit(value[i]) || value[i] in "-_"
  {
    if IsDigest(s) {
      assert s == "sha-256:" + s[8..];
    }
    forall value | s == "sha-256:" + value
      ensures s[..8] == "sha-256:" && s[8..] == value
    {
    }
  }

  predicate WellFormed(ref: ContractRef) {
    IsAbsoluteUri(ref.id) && ref.version != "" && IsDigest(ref.digest)
  }

  /** Member for member; a malformed reference equals nothing, itself included. */
  predicate SameContract(a: ContractRef, b: ContractRef) {
    WellFormed(a) && WellFormed(b) && a == b
  }

  /** `v` states `ref`: an object of exactly its three members, each of its form. */
  ghost predicate States(v: Json, ref: ContractRef) {
    && v.Obj? && IsAbsoluteUri(ref.id) && ref.version != "" && IsDigest(ref.digest)
    && (forall i :: 0 <= i < |v.members| ==> v.members[i].0 in REFERENCE_MEMBERS)
    && OwnValue(v.members, "id") == Some(Str(ref.id))
    && OwnValue(v.members, "version") == Some(Str(ref.version))
    && OwnValue(v.members, "digest") == Some(Str(ref.digest))
  }

  const REFERENCE_MEMBERS: seq<string> := ["id", "version", "digest"]

  /** A reference as a document states it. */
  function RefOf(v: Json): (r: Option<ContractRef>)
    ensures forall ref :: r == Some(ref) <==> States(v, ref)
  {
    var o := ObjectOf(v, [], REFERENCE_MEMBERS);
    if o.Err? then None
    else
      var id, version, digest := Get(o.value, "id"), Get(o.value, "version"), Get(o.value, "digest");
      assert "id" in REFERENCE_MEMBERS && "version" in REFERENCE_MEMBERS && "digest" in REFERENCE_MEMBERS;
      if !id.Str? || !version.Str? || !digest.Str? then None
      else
        var ref := ContractRef(id.s, version.s, digest.s);
        if WellFormed(ref) then Some(ref) else None
  }

  function Declared(contracts: Declarations, id: string, resource: string): Option<Declaration> {
    if contracts == [] then None
    else if contracts[0].id == id && contracts[0].covers(resource) then Some(contracts[0])
    else Declared(contracts[1..], id, resource)
  }

  function VersionNamed(versions: seq<DeclaredVersion>, name: string): Option<DeclaredVersion> {
    if versions == [] then None
    else if versions[0].version == name then Some(versions[0])
    else VersionNamed(versions[1..], name)
  }

  /** Why `ref` may not stand for an entry on `resource`, with the retention test only when `now` is given. */
  function ViolationOf(contracts: Declarations, ref: ContractRef, resource: string, actions: seq<string>,
                       now: Option<int>): Option<Violation>
  {
    if !WellFormed(ref) then Some(MalformedRef)
    else
      var declaration := Declared(contracts, ref.id, resource);
      if declaration.None? then Some(NotConfigured)
      else
        var version := VersionNamed(declaration.value.versions, ref.version);
        if version.None? then Some(NotConfigured)
        else if version.value.state.Retired? then Some(RetiredVersion)
        else if version.value.state.Superseded? && now.Some? && now.value as real > version.value.state.retainedUntil
        then Some(OutsideRetention)
        else if version.value.digest != ref.digest then Some(DigestChanged)
        else if exists a :: a in actions && a !in version.value.operations then Some(ActionNotDefined)
        else None
  }

  predicate IsFor(d: Declaration, id: string, resource: string) {
    d.id == id && d.covers(resource)
  }

  /** The first declaration of the reference's contract that covers the resource, and the first there of its version. */
  ghost predicate Configures(contracts: Declarations, ref: ContractRef, resource: string, i: nat, k: nat) {
    && i < |contracts| && IsFor(contracts[i], ref.id, resource)
    && (forall j :: 0 <= j < i ==> !IsFor(contracts[j], ref.id, resource))
    && k < |contracts[i].versions| && contracts[i].versions[k].version == ref.version
    && (forall j :: 0 <= j < k ==> contracts[i].versions[j].version != ref.version)
  }

  lemma {:induction false} DeclaredExactly(contracts: Declarations, id: string, resource: string)
    ensures var d := Declared(contracts, id, resource);
            if d.None? then forall i :: 0 <= i < |contracts| ==> !IsFor(contracts[i], id, resource)
            else exists i :: 0 <= i < |contracts| && contracts[i] == d.value && IsFor(contracts[i], id, resource) &&
                             forall j :: 0 <= j < i ==> !IsFor(contracts[j], id, resource)
  {
    if contracts != [] && !IsFor(contracts[0], id, resource) {
      DeclaredExactly(contracts[1..], id, resource);
      assert forall i :: 0 <= i < |contracts| - 1 ==> contracts[1..][i] == contracts[i + 1];
    }
  }

  lemma {:induction false} VersionNamedExactly(versions: seq<DeclaredVersion>, name: string)
    ensures var v := VersionNamed(versions, name);
            if v.None? then forall k :: 0 <= k < |versions| ==> versions[k].version != name
            else exists k :: 0 <= k < |versions| && versions[k] == v.value && versions[k].version == name &&
                             forall j :: 0 <= j < k ==> versions[j].version != name
  {
    if versions != [] && versions[0].version != name {
      VersionNamedExactly(versions[1..], name);
      assert forall k :: 0 <= k < |versions| - 1 ==> versions[1..][k] == versions[k + 1];
    }
  }

  /** Why the declared version may not be carried, the earliest of the reasons that hold. */
  ghost predicate VersionViolates(v: DeclaredVersion, ref: ContractRef, actions: seq<string>, now: Option<int>,
                                  why: Violation)
  {
    var retired := v.state.Retired?;
    var lapsed := v.state.Superseded? && now.Some? && v.state.retainedUntil < now.value as real;
    var undefined := exists i :: 0 <= i < |actions| && actions[i] !in v.operations;
    match why
    case RetiredVersion => retired
    case OutsideRetention => lapsed
    case DigestChanged => !retired && !lapsed && ref.digest != v.digest
    case ActionNotDefined => !retired && !lapsed && ref.digest == v.digest && undefined
    case _ => false
  }

  /** The version looked up, if any. */
  function Answering(contracts: Declarations, ref: ContractRef, resource: string): Option<DeclaredVersion> {
    var d := Declared(contracts, ref.id, resource);
    if d.None? then None else VersionNamed(d.value.versions, ref.version)
  }

  lemma {:induction false} AnsweringExactly(contracts: Declarations, ref: ContractRef, resource: string)
    ensures Answering(contracts, ref, resource).None? ==>
              forall i: nat, k: nat :: !Configures(contracts, ref, resource, i, k)
    ensures Answering(contracts, ref, resource).Some? ==>
              exists i: nat, k: nat :: Configures(contracts, ref, resource, i, k)
    ensures forall i: nat, k: nat :: Configures(contracts, ref, resource, i, k) ==>
              Answering(contracts, ref, resource) == Some(contracts[i].versions[k])
  {
    DeclaredExactly(contracts, ref.id, resource);
    var d := Declared(contracts, ref.id, resource);
    if d.Some? {
      VersionNamedExactly(d.value.versions, ref.version);
      var i :| 0 <= i < |contracts| && contracts[i] == d.value && IsFor(contracts[i], ref.id, resource) &&
          forall j :: 0 <= j < i ==> !IsFor(contracts[j], ref.id, resource);
      if VersionNamed(d.value.versions, ref.version).Some? {
        var k :| 0 <= k < |d.value.versions| &&
            d.value.versions[k] == VersionNamed(d.value.versions, ref.version).value &&
            d.value.versions[k].version == ref.version &&
            forall j :: 0 <= j < k ==> d.value.versions[j].version != ref.version;
        assert Configures(contracts, ref, resource, i, k);
      }
    }
  }

  /**
   * A reference is in violation exactly where it is malformed, no declared
   * version answers to it, or that version is retired, outside its retention,
   * of another digest, or does not define an action.
   */
  lemma ViolationExactly(contracts: Declarations, ref: ContractRef, resource: string, actions: seq<string>,
                         now: Option<int>)
    ensures ViolationOf(contracts, ref, resource, actions, now) == Some(MalformedRef) <==> !WellFormed(ref)
    ensures ViolationOf(contracts, ref, resource, actions, now) == Some(NotConfigured) <==>
            WellFormed(ref) && forall i: nat, k: nat :: !Configures(contracts, ref, resource, i, k)
    ensures WellFormed(ref) ==>
              forall i: nat, k: nat, why :: Configures(contracts, ref, resource, i, k) ==>
                (ViolationOf(contracts, ref, resource, actions, now) == Some(why) <==>
                 VersionViolates(contracts[i].versions[k], ref, actions, now, why))
  {
    AnsweringExactly(contracts, ref, resource);
    if WellFormed(ref) && Answering(contracts, ref, resource).Some? {
      var v := Answering(contracts, ref, resource).value;
      forall why
        ensures ViolationOf(contracts, ref, resource, actions, now) == Some(why) <==>
                VersionViolates(v, ref, actions, now, why)
      {
        VersionViolation(contracts, ref, resource, actions, now, why);
      }
    }
  }

  lemma VersionViolation(contracts: Declarations, ref: ContractRef, resource: string, actions: seq<string>,
                         now: Option<int>, why: Violation)
    requires WellFormed(ref) && Answering(contracts, ref, resource).Some?
    ensures ViolationOf(contracts, ref, resource, actions, now) == Some(why) <==>
            VersionViolates(Answering(contracts, ref, resource).value, ref, actions, now, why)
  {
    var v := Answering(contracts, ref, resource).value;
    if exists a :: a in actions && a !in v.operations {
      var a :| a in actions && a !in v.operations;
      var i :| 0 <= i < |actions| && actions[i] == a;
    }
  }

  /** The contract a recorded scope value was bound to is still supported at `now`. */
  predicate Supported(contracts: Declarations, ref: ContractRef, resource: string, now: int) {
    ViolationOf(contracts, ref, resource, [], Some(now)).None?
  }

  /** Support ends and never returns: supported at a time, it was supported at every earlier one. */
  lemma SupportOnlyEnds(contracts: Declarations, ref: ContractRef, resource: string, t: int, u: int)
    requires t <= u && Supported(contracts, ref, resource, u)
    ensures Supported(contracts, ref, resource, t)
  {
  }

  /** Two well-formed references with one grouping key `id|version|digest` are one reference. */
  function GroupKey(ref: ContractRef): string {
    ref.id + "|" + ref.version + "|" + ref.digest
  }

  lemma GroupKeyIdentifies(a: ContractRef, b: ContractRef)
    requires WellFormed(a) && WellFormed(b) && GroupKey(a) == GroupKey(b)
    ensures a == b
  {
    var k := GroupKey(a);
    assert k[|k| - 51..] == a.digest;
    assert k[|k| - 51..] == b.digest by { assert k == GroupKey(b); }
    var rest := k[..|k| - 52];
    assert rest == a.id + "|" + a.version;
    assert rest == b.id + "|" + b.version by { assert k == GroupKey(b); }
    BarSplits(a.id, a.version, b.id, b.version);
  }

  lemma BarSplits(id: string, version: string, id': string, version': string)
    requires id + "|" + version == id' + "|" + version'
    requires IsAbsoluteUri(id) && IsAbsoluteUri(id')
    ensures id == id' && version == version'
  {
    var s := id + "|" + version;
    assert s[|id|] == '|' && s[|id'|] == '|' by { assert s == id' + "|" + version'; }
    assert |id| == |id'|;
    assert id == s[..|id|] == s[..|id'|] == id' by { assert s == id' + "|" + version'; }
    assert version == s[|id| + 1..] == version' by { assert s == id' + "|" + version'; }
  }
}
