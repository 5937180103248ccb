/**
 Forwarding an identity to another service in HTTP headers and reading it back.

 Header names are compared in Go's canonical form. An identity's extra metadata is not
 forwarded and not part of this model.
 */
module Identity {
  import opened Common
  import opened Text

  datatype Identity = Identity(
    userID: string, userName: string, nickName: string, tenantID: string,
    roles: seq<string>, permissions: seq<string>, token: string, source: string)

  datatype HeaderNames = HeaderNames(
    userID: string, userName: string, nickName: string, tenantID: string,
    roles: string, permissions: string, token: string)

  const DEFAULT_NAMES := HeaderNames("X-User-ID", "X-User-Name", "X-Nick-Name", "X-Tenant-ID",
                                     "X-User-Roles", "X-User-Permissions", "X-Forwarded-Token")

  type Headers = map<string, string>

  // ------------------------------------------------------------------- header names

  predicate IsLower(c: char) { 'a' <= c <= 'z' }
  predicate IsUpper(c: char) { 'A' <= c <= 'Z' }

  function Upper(c: char): char { if IsLower(c) then ((c as int) - 32) as char else c }
  function Lower(c: char): char { if IsUpper(c) then ((c as int) + 32) as char else c }

  /** A character allowed in a header name. */
  predicate IsToken(c: char)
  {
    IsLower(c) || IsUpper(c) || '0' <= c <= '9' || c in "!#$%&'*+-.^_`|~"
  }

  /** Capitals at the start and after each hyphen, small letters elsewhere; an odd name is left alone. */
  function Canonical(name: string): (r: string)
    ensures |r| == |name|
  {
    if forall k :: 0 <= k < |name| ==> IsToken(name[k]) then
      seq(|name|, i requires 0 <= i < |name| => if i == 0 || name[i - 1] == '-' then Upper(name[i]) else Lower(name[i]))
    else name
  }

  ghost predicate AllToken(name: string) { forall k :: 0 <= k < |name| ==> IsToken(name[k]) }

  /** The names are spelled alike, apart from capitals. */
  ghost predicate SameSpelling(a: string, b: string)
  {
    |a| == |b| && forall i :: 0 <= i < |a| ==> Lower(a[i]) == Lower(b[i])
  }

  lemma SameLetter(c: char, d: char)
    ensures Lower(Upper(c)) == Lower(c) && Lower(Lower(c)) == Lower(c)
    ensures Lower(c) == Lower(d) <==> Upper(c) == Upper(d)
    ensures Lower(c) == Lower(d) && c == '-' ==> d == '-'
  {
  }

  /** A proper header name means the same in any capitals, and keeps its spelling. */
  lemma CapitalsDoNotMatter(a: string, b: string)
    requires AllToken(a) && AllToken(b)
    ensures Canonical(a) == Canonical(b) <==> SameSpelling(a, b)
    ensures SameSpelling(Canonical(a), a)
  {
    forall i | 0 <= i < |a| ensures Lower(Canonical(a)[i]) == Lower(a[i]) { SameLetter(a[i], a[i]); }
    forall i | 0 <= i < |b| ensures Lower(Canonical(b)[i]) == Lower(b[i]) { SameLetter(b[i], b[i]); }
    if SameSpelling(a, b) {
      forall i | 0 <= i < |a| ensures Canonical(a)[i] == Canonical(b)[i] {
        SameLetter(a[i], b[i]);
        if i > 0 {
          SameLetter(a[i - 1], b[i - 1]);
          SameLetter(b[i - 1], a[i - 1]);
        }
      }
    }
  }

  /** A name with a character that headers do not allow is taken as it is. */
  lemma OddNamesStay(name: string)
    requires !AllToken(name)
    ensures Canonical(name) == name
  {
  }

  /** The names differ in length or in the capital after their X-. */
  predicate Differ(a: string, b: string)
  {
    |a| != |b| || (|a| > 2 && a[1] == '-' && b[1] == '-' && IsUpper(a[2]) && IsUpper(b[2]) && a[2] != b[2])
  }

  lemma DifferentHeaders(a: string, b: string)
    requires Differ(a, b)
    ensures Canonical(a) != Canonical(b)
  {
    if |a| == |b| {
      assert Canonical(a)[2] == a[2] && Canonical(b)[2] == b[2];
    }
  }

  function NameList(n: HeaderNames): seq<string>
  {
    [n.userID, n.userName, n.nickName, n.tenantID, n.roles, n.permissions, n.token]
  }

  /** No two of the names are the same header. */
  ghost predicate AllDifferent(names: seq<string>)
  {
    forall i, j :: 0 <= i < j < |names| ==> Canonical(names[i]) != Canonical(names[j])
  }

  lemma DistinctIfDiffer(names: seq<string>)
    requires forall i, j :: 0 <= i < j < |names| ==> Differ(names[i], names[j])
    ensures AllDifferent(names)
  {
    forall i, j | 0 <= i < j < |names| ensures Canonical(names[i]) != Canonical(names[j]) {
      DifferentHeaders(names[i], names[j]);
    }
  }

  predicate Shape(name: string, length: nat, capital: char)
  {
    |name| == length && length > 2 && name[1] == '-' && name[2] == capital && IsUpper(capital)
  }

  lemma DistinctByShape(n: HeaderNames)
    requires Shape(n.userID, 9, 'U') && Shape(n.userName, 11, 'U') && Shape(n.nickName, 11, 'N')
    requires Shape(n.tenantID, 11, 'T') && Shape(n.roles, 12, 'U') && Shape(n.permissions, 18, 'U')
    requires Shape(n.token, 17, 'F')
    ensures AllDifferent(NameList(n))
  {
    DistinctIfDiffer(NameList(n));
  }

  lemma DefaultNamesDistinct()
    ensures AllDifferent(NameList(DEFAULT_NAMES))
  {
    DistinctByShape(DEFAULT_NAMES);
  }

  // -------------------------------------------------------------- setting and getting

  function Set(h: Headers, name: string, value: string): Headers { h[Canonical(name) := value] }

  function SetIfNotEmpty(h: Headers, name: string, value: string): Headers
  {
    if value == "" then h else Set(h, name, value)
  }

  function Get(h: Headers, name: string): string
  {
    if Canonical(name) in h then Trim(IsSpace, h[Canonical(name)]) else ""
  }

  function Join(parts: seq<string>): string
  {
    if parts == [] then "" else if |parts| == 1 then parts[0] else parts[0] + "," + Join(parts[1..])
  }

  /** strings.Split on a comma. */
  function Fields(s: string): (r: seq<string>)
    ensures r != []
  {
    if s == "" then [""]
    else
      var rest := Fields(s[1..]);
      if s[0] == ',' then [""] + rest else [[s[0]] + rest[0]] + rest[1..]
  }

  function Kept(part: string): seq<string>
  {
    var t := Trim(IsSpace, part);
    if t != "" then [t] else []
  }

  function Cleaned(parts: seq<string>): seq<string>
  {
    if parts == [] then [] else Kept(parts[0]) + Cleaned(parts[1..])
  }

  method SplitCsv(s: string) returns (out: seq<string>)
    ensures out == Cleaned(Fields(s))
  {
    out := CleanParts(Fields(s));
  }

  method CleanParts(parts: seq<string>) returns (out: seq<string>)
    ensures out == Cleaned(parts)
  {
    out := [];
    assert parts[0..] == parts;
    for i := 0 to |parts|
      invariant Cleaned(parts) == out + Cleaned(parts[i..])
    {
      CleanedNext(parts, i, out);
      var p := TrimMethod(IsSpace, parts[i]);
      if p != "" {
        out := out + [p];
      }
    }
  }

  lemma CleanedNext(parts: seq<string>, i: nat, before: seq<string>)
    requires i < |parts|
    ensures before + Cleaned(parts[i..]) == (before + Kept(parts[i])) + Cleaned(parts[i + 1..])
  {
    assert parts[i..][1..] == parts[i + 1..];
  }

  // ------------------------------------------------------------- inject and extract

  function ValueList(id: Identity): seq<string>
  {
    [id.userID, id.userName, id.nickName, id.tenantID, Join(id.roles), Join(id.permissions), id.token]
  }

  /** The headers after the first k values have been set. */
  function SetFirst(h: Headers, names: seq<string>, values: seq<string>, k: nat): Headers
    requires k <= |names| == |values|
  {
    if k == 0 then h else SetIfNotEmpty(SetFirst(h, names, values, k - 1), names[k - 1], values[k - 1])
  }

  function Injected(h: Headers, id: Identity, n: HeaderNames): Headers
  {
    SetFirst(h, NameList(n), ValueList(id), 7)
  }

  function Parts(v: string): seq<string> { if v == "" then [] else Cleaned(Fields(v)) }

  function GetList(h: Headers, name: string): seq<string> { Parts(Get(h, name)) }

  /** The identity in the headers; none without a user. */
  function Extracted(h: Headers, n: HeaderNames): Option<Identity>
  {
    var id := Identity(Get(h, n.userID), Get(h, n.userName), Get(h, n.nickName), Get(h, n.tenantID),
                       GetList(h, n.roles), GetList(h, n.permissions), Get(h, n.token), "header");
    if id.userID == "" then None else Some(id)
  }

  class Request {
    var header: Headers

    constructor (header: Headers)
      ensures this.header == header
    {
      this.header := header;
    }

    method InjectHeaders(id: Identity, n: HeaderNames)
      modifies this
      ensures header == Injected(old(header), id, n)
    {
      ghost var h, names, values := header, NameList(n), ValueList(id);
      SetHeader(n.userID, id.userID);
      assert header == SetFirst(h, names, values, 1);
      SetHeader(n.userName, id.userName);
      assert header == SetFirst(h, names, values, 2);
      SetHeader(n.nickName, id.nickName);
      assert header == SetFirst(h, names, values, 3);
      SetHeader(n.tenantID, id.tenantID);
      assert header == SetFirst(h, names, values, 4);
      if |id.roles| > 0 {
        SetHeader(n.roles, Join(id.roles));
      }
      assert header == SetFirst(h, names, values, 5);
      if |id.permissions| > 0 {
        SetHeader(n.permissions, Join(id.permissions));
      }
      assert header == SetFirst(h, names, values, 6);
      SetHeader(n.token, id.token);
    }

    method SetHeader(name: string, value: string)
      modifies this
      ensures header == SetIfNotEmpty(old(header), name, value)
    {
      if value != "" {
        header := Set(header, name, value);
      }
    }

    method Extract(n: HeaderNames) returns (id: Option<Identity>)
      ensures id == Extracted(header, n)
    {
      var roles, permissions := [], [];
      if Get(header, n.roles) != "" {
        roles := SplitCsv(Get(header, n.roles));
      }
      if Get(header, n.permissions) != "" {
        permissions := SplitCsv(Get(header, n.permissions));
      }
      var found := Identity(
        Get(header, n.userID), Get(header, n.userName), Get(header, n.nickName), Get(header, n.tenantID),
        roles, permissions, Get(header, n.token), "header");
      id := if found.userID == "" then None else Some(found);
    }
  }

  // --------------------------------------------------------------------- round trip

  predicate Trimmed(s: string) { Trim(IsSpace, s) == s }

  predicate CleanPart(s: string) { s != "" && Trimmed(s) && ',' !in s }

  ghost predicate AllClean(parts: seq<string>) { forall i :: 0 <= i < |parts| ==> CleanPart(parts[i]) }

  /** What an identity must look like to survive the headers. */
  ghost predicate Forwardable(id: Identity)
  {
    && id.userID != "" && Trimmed(id.userID) && Trimmed(id.userName) && Trimmed(id.nickName)
    && Trimmed(id.tenantID) && Trimmed(id.token) && AllClean(id.roles) && AllClean(id.permissions)
  }

  /** Splitting always gives clean parts. */
  lemma {:induction false} CleanedIsClean(parts: seq<string>)
    requires forall i :: 0 <= i < |parts| ==> ',' !in parts[i]
    ensures AllClean(Cleaned(parts))
  {
    if parts != [] {
      CleanedIsClean(parts[1..]);
      var t := Trim(IsSpace, parts[0]);
      TrimMeaning(IsSpace, parts[0]);
      TrimMeaning(IsSpace, t);
    }
  }

  lemma {:induction false} FieldsHaveNoComma(s: string)
    ensures forall i :: 0 <= i < |Fields(s)| ==> ',' !in Fields(s)[i]
  {
    if s != "" { FieldsHaveNoComma(s[1..]); }
  }

  lemma {:induction false} CleanStays(parts: seq<string>)
    requires AllClean(parts)
    ensures Cleaned(parts) == parts
  {
    if parts != [] {
      CleanStays(parts[1..]);
      assert CleanPart(parts[0]);
    }
  }

  lemma {:induction false} FirstField(part: string, rest: string)
    requires ',' !in part
    ensures Fields(part) == [part] && Fields(part + "," + rest) == [part] + Fields(rest)
  {
    if part == "" {
      assert (part + "," + rest)[1..] == rest;
    } else {
      assert part == [part[0]] + part[1..];
      FirstField(part[1..], rest);
      assert (part + "," + rest)[1..] == part[1..] + "," + rest;
    }
  }

  lemma {:induction false} FieldsOfJoin(parts: seq<string>)
    requires parts != [] && forall i :: 0 <= i < |parts| ==> ',' !in parts[i]
    ensures Fields(Join(parts)) == parts
  {
    FirstField(parts[0], if |parts| > 1 then Join(parts[1..]) else "");
    if |parts| > 1 {
      FieldsOfJoin(parts[1..]);
      assert parts == [parts[0]] + parts[1..];
    } else {
      assert parts == [parts[0]];
    }
  }

  lemma {:induction false} JoinIsTrimmed(parts: seq<string>)
    requires parts != [] && AllClean(parts)
    ensures Join(parts) != "" && Trimmed(Join(parts))
    ensures Join(parts)[0] == parts[0][0] && !IsSpace(Join(parts)[|Join(parts)| - 1])
  {
    assert CleanPart(parts[0]);
    TrimMeaning(IsSpace, parts[0]);
    if |parts| > 1 { JoinIsTrimmed(parts[1..]); }
    TrimMeaning(IsSpace, Join(parts));
  }

  lemma {:induction false} CleanedOfConcat(a: seq<string>, b: seq<string>)
    ensures Cleaned(a + b) == Cleaned(a) + Cleaned(b)
  {
    if a == [] {
      assert a + b == b;
    } else {
      CleanedOfConcat(a[1..], b);
      assert (a + b)[1..] == a[1..] + b;
      assert Kept(a[0]) + (Cleaned(a[1..]) + Cleaned(b)) == (Kept(a[0]) + Cleaned(a[1..])) + Cleaned(b);
    }
  }

  lemma {:induction false} CleanedTrims(parts: seq<string>, k: nat)
    requires k < |parts| && forall i :: 0 <= i < |parts| ==> Trim(IsSpace, parts[i]) != ""
    ensures |Cleaned(parts)| == |parts| && Cleaned(parts)[k] == Trim(IsSpace, parts[k])
  {
    assert Kept(parts[0]) == [Trim(IsSpace, parts[0])];
    if |parts| == 1 {
      assert parts[1..] == [];
    } else {
      CleanedTrims(parts[1..], if k > 0 then k - 1 else 0);
      assert k > 0 ==> parts[1..][k - 1] == parts[k];
    }
  }

  /** Spaces around the entries of a list are taken off, one by one. */
  lemma PaddedListIsTrimmed(parts: seq<string>, k: nat)
    requires k < |parts| && forall i :: 0 <= i < |parts| ==> ',' !in parts[i] && Trim(IsSpace, parts[i]) != ""
    ensures var found := Parts(Join(parts)); |found| == |parts| && found[k] == Trim(IsSpace, parts[k])
  {
    FieldsOfJoin(parts);
    CleanedTrims(parts, k);
    assert Join(parts) != "" by { assert Trim(IsSpace, parts[0]) != "" && parts[0] != ""; }
  }

  /** An entry of spaces only is as good as absent. */
  lemma BlankEntryIsSkipped(a: seq<string>, blank: string, b: seq<string>)
    requires Trim(IsSpace, blank) == ""
    ensures Cleaned(a + [blank] + b) == Cleaned(a + b)
  {
    CleanedOfConcat(a + [blank], b);
    CleanedOfConcat(a, [blank]);
    CleanedOfConcat(a, b);
    assert [blank][1..] == [];
    assert Cleaned([blank]) == [];
    assert Cleaned(a) + [] == Cleaned(a);
  }

  /** A list comes back exactly when its parts are clean. */
  lemma ListSurvivesExactly(parts: seq<string>)
    ensures Parts(Trim(IsSpace, Join(parts))) == parts <==> AllClean(parts)
  {
    var v := Trim(IsSpace, Join(parts));
    PartsAreClean(v);
    if AllClean(parts) && parts != [] {
      JoinIsTrimmed(parts);
      FieldsOfJoin(parts);
      CleanStays(parts);
    }
  }

  lemma PartsAreClean(v: string)
    ensures AllClean(Parts(v))
  {
    FieldsHaveNoComma(v);
    CleanedIsClean(Fields(v));
  }

  lemma GetAfterSet(h: Headers, name: string, value: string, other: string)
    ensures Get(SetIfNotEmpty(h, name, value), other)
         == if value != "" && Canonical(name) == Canonical(other) then Trim(IsSpace, value) else Get(h, other)
  {
  }

  /** Each header holds its own value if that was set, and what it held before otherwise. */
  lemma {:induction false} SetFirstGives(h: Headers, names: seq<string>, values: seq<string>, k: nat, i: nat)
    requires k <= |names| == |values| && i < |names| && AllDifferent(names)
    ensures Get(SetFirst(h, names, values, k), names[i])
         == if i < k && values[i] != "" then Trim(IsSpace, values[i]) else Get(h, names[i])
  {
    if k > 0 {
      SetFirstGives(h, names, values, k - 1, i);
      GetAfterSet(SetFirst(h, names, values, k - 1), names[k - 1], values[k - 1], names[i]);
    }
  }

  /** A field left empty is not filled by a header that was already there. */
  predicate Unshadowed(h: Headers, id: Identity, n: HeaderNames)
  {
    && (id.userName == "" ==> Get(h, n.userName) == "")
    && (id.nickName == "" ==> Get(h, n.nickName) == "")
    && (id.tenantID == "" ==> Get(h, n.tenantID) == "")
    && (id.roles == [] ==> GetList(h, n.roles) == [])
    && (id.permissions == [] ==> GetList(h, n.permissions) == [])
    && (id.token == "" ==> Get(h, n.token) == "")
  }

  lemma FieldSurvivesExactly(h: Headers, id: Identity, n: HeaderNames, i: nat)
    requires AllDifferent(NameList(n)) && i < 7
    ensures var v, name := ValueList(id)[i], NameList(n)[i];
            Get(Injected(h, id, n), name) == v <==> Trimmed(v) && (v == "" ==> Get(h, name) == "")
  {
    SetFirstGives(h, NameList(n), ValueList(id), 7, i);
    TrimMeaning(IsSpace, ValueList(id)[i]);
    var name := NameList(n)[i];
    if Canonical(name) in h { TrimMeaning(IsSpace, h[Canonical(name)]); }
  }

  lemma ListFieldSurvivesExactly(h: Headers, id: Identity, n: HeaderNames, i: nat, parts: seq<string>)
    requires AllDifferent(NameList(n)) && i < 7 && ValueList(id)[i] == Join(parts)
    ensures GetList(Injected(h, id, n), NameList(n)[i]) == parts
       <==> AllClean(parts) && (parts == [] ==> GetList(h, NameList(n)[i]) == [])
  {
    SetFirstGives(h, NameList(n), ValueList(id), 7, i);
    ListSurvivesExactly(parts);
    PartsAreClean(Get(h, NameList(n)[i]));
    if AllClean(parts) && parts != [] { JoinIsTrimmed(parts); }
  }

  /** A header that is not there reads as empty: without headers there is no identity, and with a user only that. */
  lemma AbsentHeadersAreEmpty(n: HeaderNames, user: string)
    requires AllDifferent(NameList(n)) && Trim(IsSpace, user) != ""
    ensures Extracted(map[], n) == None
    ensures Extracted(map[Canonical(n.userID) := user], n)
         == Some(Identity(Trim(IsSpace, user), "", "", "", [], [], "", "header"))
  {
    var names := NameList(n);
    assert forall i :: 1 <= i < 7 ==> Canonical(names[i]) != Canonical(names[0]);
    assert names[1] == n.userName && names[2] == n.nickName && names[3] == n.tenantID;
    assert names[4] == n.roles && names[5] == n.permissions && names[6] == n.token;
  }

  /**
   An injected identity is extracted unchanged, apart from its source, exactly when it has a
   user, its fields have no surrounding space, its roles and permissions are non-empty, trimmed
   and free of commas, and no older header shows through a field left empty.
   */
  lemma RoundTripExactly(h: Headers, id: Identity, n: HeaderNames)
    requires AllDifferent(NameList(n))
    ensures Extracted(Injected(h, id, n), n) == Some(id.(source := "header"))
       <==> Forwardable(id) && Unshadowed(h, id, n)
  {
    FieldSurvivesExactly(h, id, n, 0);
    FieldSurvivesExactly(h, id, n, 1);
    FieldSurvivesExactly(h, id, n, 2);
    FieldSurvivesExactly(h, id, n, 3);
    ListFieldSurvivesExactly(h, id, n, 4, id.roles);
    ListFieldSurvivesExactly(h, id, n, 5, id.permissions);
    FieldSurvivesExactly(h, id, n, 6);
  }
}
