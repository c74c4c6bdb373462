/** Parsing of LDAP group principal ids, and the filter that keeps the
    (id, name) records of a listing that have both fields. */
module Parsers {
  import opened Results
  import opened Types
  import Seqs

  predicate HasPrefix(s: string, prefix: string) {
    |prefix| <= |s| && s[..|prefix|] == prefix
  }

  /** Index of the first `c` in `s`, or `|s|` when there is none. */
  function IndexOf(s: string, c: char): (i: nat)
    ensures i <= |s|
    ensures forall j :: 0 <= j < i ==> s[j] != c
    ensures i < |s| ==> s[i] == c
  {
    if s == [] then 0 else if s[0] == c then 0 else 1 + IndexOf(s[1..], c)
  }

  /** strings.Split with a one-character separator: the pieces between
      successive separators, at least one (possibly empty) piece. */
  function Split(s: string, sep: char): (parts: seq<string>)
    ensures |parts| >= 1
    ensures forall p :: p in parts ==> sep !in p
    ensures parts[0] == s[..IndexOf(s, sep)]
    decreases |s|
  {
    var i := IndexOf(s, sep);
    if i == |s| then [s] else [s[..i]] + Split(s[i + 1..], sep)
  }

  /** strings.Join with a one-character separator. */
  function Join(parts: seq<string>, sep: char): string
    requires |parts| >= 1
  {
    if |parts| == 1 then parts[0] else parts[0] + [sep] + Join(parts[1..], sep)
  }

  /** Joining the pieces of a split gives back the original string. */
  lemma {:induction false} JoinSplit(s: string, sep: char)
    ensures Join(Split(s, sep), sep) == s
    decreases |s|
  {
    var i := IndexOf(s, sep);
    var parts := Split(s, sep);
    if i == |s| {
      assert parts == [s];
    } else {
      var rest := Split(s[i + 1..], sep);
      assert parts == [s[..i]] + rest;
      assert parts[0] == s[..i] && parts[1..] == rest;
      JoinSplit(s[i + 1..], sep);
      assert Join(parts, sep) == s[..i] + [sep] + s[i + 1..];
      assert s == s[..i] + [sep] + s[i + 1..];
    }
  }

  /** Splitting a join of separator-free pieces gives back the pieces. */
  lemma {:induction false} SplitJoin(parts: seq<string>, sep: char)
    requires |parts| >= 1
    requires forall p :: p in parts ==> sep !in p
    ensures Split(Join(parts, sep), sep) == parts
    decreases |parts|
  {
    var s := Join(parts, sep);
    if |parts| == 1 {
      IndexOfAbsent(s, sep);
    } else {
      var rest := Join(parts[1..], sep);
      assert s == parts[0] + [sep] + rest;
      IndexOfAfter(parts[0], sep, rest);
      assert s[..|parts[0]|] == parts[0];
      assert s[|parts[0]| + 1..] == rest;
      SplitJoin(parts[1..], sep);
    }
  }

  lemma IndexOfAbsent(s: string, c: char)
    requires c !in s
    ensures IndexOf(s, c) == |s|
  {
  }

  lemma IndexOfAfter(a: string, c: char, b: string)
    requires c !in a
    ensures IndexOf(a + [c] + b, c) == |a|
  {
    var s := a + [c] + b;
    assert s[|a|] == c;
    assert forall j :: 0 <= j < |a| ==> s[j] == a[j];
  }

  /** The scheme that marks a directory-group principal. */
  const GroupScheme: string := "openldap_group"
  /** The source drops len("openldap_group://") characters before the
      distinguished name, although it only checks the 14-character scheme. */
  const SchemePrefixLength: nat := 17

  /** A character that UTF-8 encodes in one byte. The source slices bytes and the model
      characters; the two agree on a prefix of such characters. */
  predicate IsAscii(c: char) {
    (c as int) < 128
  }

  /** Inputs for which the source's `principalID[17:]` does not go out of range. */
  predicate SliceInRange(principalId: string) {
    HasPrefix(principalId, GroupScheme) ==> |principalId| >= SchemePrefixLength
  }

  datatype ParseError =
    | InvalidPrincipal   // "Invalid LDAP principalID"
    | CnNotFound         // "CN in the principalID not found"
    | InvalidCnValue     // "Invalid CN value in the principalID"
    | CnFieldNotFound    // "CN field not found"

  /** The distinguished name: everything after the 17-character scheme prefix. */
  function Dn(principalId: string): string
    requires HasPrefix(principalId, GroupScheme) && SliceInRange(principalId)
  {
    principalId[SchemePrefixLength..]
  }

  /** The first comma-separated component of a distinguished name. */
  function FirstComponent(dn: string): string {
    dn[..IndexOf(dn, ',')]
  }

  /** parseGroupFromPrincipalID: 'openldap_group://cn=foo,ou=Groups,...' gives 'foo'. */
  function ParseGroupFromPrincipalId(principalId: string): (r: Result<string, ParseError>)
    requires SliceInRange(principalId)
    ensures r == Err(InvalidPrincipal) <==> !HasPrefix(principalId, GroupScheme)
    ensures r != Err(CnNotFound)
    ensures r == Err(InvalidCnValue) <==>
      HasPrefix(principalId, GroupScheme) && '=' !in FirstComponent(Dn(principalId))
    ensures r.Ok? <==> HasPrefix(principalId, GroupScheme) && HasPrefix(Dn(principalId), "cn=")
    ensures r.Ok? ==> ',' !in r.value && '=' !in r.value
    ensures r.Ok? ==>
      var dn, n := Dn(principalId), 3 + |r.value|;
      n <= |dn| && dn[..n] == "cn=" + r.value && (n == |dn| || dn[n] == ',' || dn[n] == '=')
  {
    if !HasPrefix(principalId, GroupScheme) then Err(InvalidPrincipal)
    else
      var dn := principalId[SchemePrefixLength..];
      var dnParts := Split(dn, ',');
      if |dnParts| < 1 then Err(CnNotFound)
      else
        var cn := dnParts[0];
        var cnParts := Split(cn, '=');
        CnPrefix(dn);
        if |cnParts| < 2 then
          SplitSingle(cn, '=');
          Err(InvalidCnValue)
        else if cnParts[0] != "cn" then
          Err(CnFieldNotFound)
        else
          CnValue(dn, cn, cnParts);
          Ok(cnParts[1])
  }

  lemma SplitSingle(s: string, sep: char)
    requires |Split(s, sep)| < 2
    ensures sep !in s
  {
  }

  /** A distinguished name starting with "cn=" has a first component starting with "cn=",
      whose key (the text before its first '=') is "cn". */
  lemma CnPrefix(dn: string)
    ensures HasPrefix(dn, "cn=") ==>
      var cn := FirstComponent(dn);
      |cn| >= 3 && cn[..3] == "cn=" && Split(cn, '=')[0] == "cn"
  {
    if HasPrefix(dn, "cn=") {
      var cn := FirstComponent(dn);
      assert dn[0] == 'c' && dn[1] == 'n' && dn[2] == '=';
      assert IndexOf(dn, ',') >= 3;
      assert cn[..3] == dn[..3];
      assert cn[2] == '=' && cn[0] != '=' && cn[1] != '=';
      assert IndexOf(cn, '=') == 2;
    }
  }

  /** The first component is the comma-free prefix of the distinguished name
      that ends at its first ',' (or at its end). */
  lemma FirstComponentNoComma(dn: string)
    ensures ',' !in FirstComponent(dn)
    ensures FirstComponent(dn) == dn[..|FirstComponent(dn)|]
    ensures |FirstComponent(dn)| == |dn| || dn[|FirstComponent(dn)|] == ','
  {
  }

  /** The second piece of a split at '=' of a component starting with "cn=". */
  lemma SecondPiece(cn: string)
    requires |cn| >= 3 && cn[..3] == "cn="
    ensures |Split(cn, '=')| >= 2
    ensures Split(cn, '=')[1] == cn[3..][..IndexOf(cn[3..], '=')]
  {
    assert cn[2] == '=' && cn[0] != '=' && cn[1] != '=';
    assert IndexOf(cn, '=') == 2;
  }

  /** What the value of a well-formed first component is. */
  lemma CnValue(dn: string, cn: string, cnParts: seq<string>)
    requires cn == FirstComponent(dn)
    requires cnParts == Split(cn, '=') && |cnParts| >= 2 && cnParts[0] == "cn"
    ensures HasPrefix(dn, "cn=")
    ensures ',' !in cnParts[1] && '=' !in cnParts[1]
    ensures var n := 3 + |cnParts[1]|;
      n <= |dn| && dn[..n] == "cn=" + cnParts[1] && (n == |dn| || dn[n] == ',' || dn[n] == '=')
  {
    var e := IndexOf(cn, '=');
    assert cn[..e] == "cn";
    assert e == 2;
    assert cn[..3] == "cn=";
    FirstComponentNoComma(dn);
    assert dn[..3] == cn[..3];
    SecondPiece(cn);
    var rest := cn[3..];
    var v := cnParts[1];
    var j := IndexOf(rest, '=');
    assert v == rest[..j];
    assert ',' !in v by {
      forall i | 0 <= i < |v| ensures v[i] != ',' {
        assert v[i] == cn[3 + i];
      }
    }
    var n := 3 + |v|;
    assert cn[..n] == cn[..3] + rest[..j];
    assert dn[..n] == cn[..n];
    if n < |dn| && j < |rest| {
      assert dn[n] == cn[n] == rest[j];
    }
  }

  /** The three characters after "openldap_group" are dropped without being examined:
      'openldap_group:::cn=foo' parses like 'openldap_group://cn=foo'. Stated for
      single-byte characters, where dropping 17 bytes is dropping 17 characters. */
  lemma SchemeSeparatorIgnored(principalId: string, sep: string)
    requires HasPrefix(principalId, GroupScheme) && SliceInRange(principalId) && |sep| == 3
    requires forall i :: 0 <= i < SchemePrefixLength ==> IsAscii(principalId[i])
    requires forall i :: 0 <= i < |sep| ==> IsAscii(sep[i])
    ensures var other := GroupScheme + sep + principalId[SchemePrefixLength..];
      SliceInRange(other) && ParseGroupFromPrincipalId(other) == ParseGroupFromPrincipalId(principalId)
  {
    var other := GroupScheme + sep + principalId[SchemePrefixLength..];
    assert other[..|GroupScheme|] == GroupScheme;
    assert other[SchemePrefixLength..] == principalId[SchemePrefixLength..];
  }

  /** Only one value can follow "cn=" up to a ',', a '=' or the end. */
  lemma CnRunUnique(d: string, v: string, w: string)
    requires ',' !in v && '=' !in v && ',' !in w && '=' !in w
    requires |v| <= |d| && d[..|v|] == v && (|v| == |d| || d[|v|] == ',' || d[|v|] == '=')
    requires |w| <= |d| && d[..|w|] == w && (|w| == |d| || d[|w|] == ',' || d[|w|] == '=')
    ensures v == w
  {
    assert forall j :: 0 <= j < |v| ==> d[j] == v[j];
    assert forall j :: 0 <= j < |w| ==> d[j] == w[j];
    assert |v| == |w|;
  }

  /** The distinguished name of "openldap_group" + a three-character separator + `dn` is `dn`. */
  lemma DnOfScheme(sep: string, dn: string)
    requires |sep| == 3
    ensures var principalId := GroupScheme + sep + dn;
      HasPrefix(principalId, GroupScheme) && SliceInRange(principalId) && Dn(principalId) == dn
  {
    var principalId := GroupScheme + sep + dn;
    assert principalId[..|GroupScheme|] == GroupScheme;
    assert principalId[SchemePrefixLength..] == dn;
  }

  /** An accepted principal's name is the run after "cn=" that ends at the end, a ',' or a '='. */
  lemma ParsedRun(principalId: string)
    requires SliceInRange(principalId) && ParseGroupFromPrincipalId(principalId).Ok?
    ensures var d, w := Dn(principalId)[3..], ParseGroupFromPrincipalId(principalId).value;
      ',' !in w && '=' !in w && |w| <= |d| && d[..|w|] == w && (|w| == |d| || d[|w|] == ',' || d[|w|] == '=')
  {
    var dn, w := Dn(principalId), ParseGroupFromPrincipalId(principalId).value;
    assert dn[..3 + |w|] == "cn=" + w;
    assert dn[3..][..|w|] == dn[..3 + |w|][3..];
  }

  /** In "cn=<v><tail>", <v> is the run after "cn=" that ends at the end, a ',' or a '='. */
  lemma ValueRun(dn: string, v: string, tail: string)
    requires tail == [] || tail[0] == ',' || tail[0] == '='
    requires dn == "cn=" + v + tail
    ensures HasPrefix(dn, "cn=")
    ensures var d := dn[3..]; |v| <= |d| && d[..|v|] == v && (|v| == |d| || d[|v|] == ',' || d[|v|] == '=')
  {
    assert dn[..3] == "cn=";
    assert dn[3..] == v + tail;
  }

  /** Whatever the prefix, a distinguished name "cn=<v>..." yields <v>. */
  lemma ParseGroupValue(principalId: string, v: string, tail: string)
    requires ',' !in v && '=' !in v
    requires tail == [] || tail[0] == ',' || tail[0] == '='
    requires SliceInRange(principalId) && HasPrefix(principalId, GroupScheme)
    requires Dn(principalId) == "cn=" + v + tail
    ensures ParseGroupFromPrincipalId(principalId) == Ok(v)
  {
    ValueRun(Dn(principalId), v, tail);
    ParsedRun(principalId);
    CnRunUnique(Dn(principalId)[3..], v, ParseGroupFromPrincipalId(principalId).value);
  }

  /** A principal "openldap_group://cn=<v>" followed by the end, a ',' or a '='
      parses to <v>, for every <v> free of ',' and '='. */
  lemma ParseGroupAccepts(v: string, tail: string)
    requires ',' !in v && '=' !in v
    requires tail == [] || tail[0] == ',' || tail[0] == '='
    ensures var principalId := GroupScheme + "://cn=" + v + tail;
      SliceInRange(principalId) && ParseGroupFromPrincipalId(principalId) == Ok(v)
  {
    var dn := "cn=" + v + tail;
    assert GroupScheme + "://cn=" + v + tail == GroupScheme + "://" + dn;
    DnOfScheme("://", dn);
    ParseGroupValue(GroupScheme + "://" + dn, v, tail);
  }

  /** The key of a component "<key>=..." is "cn" exactly when the name starts with "cn=". */
  lemma ComponentKey(dn: string, key: string)
    requires '=' !in key && |key| < |dn| && dn[..|key|] == key && dn[|key|] == '='
    ensures HasPrefix(dn, "cn=") ==> key == "cn"
  {
    assert dn == key + ['='] + dn[|key| + 1..];
    IndexOfAfter(key, '=', dn[|key| + 1..]);
    if HasPrefix(dn, "cn=") {
      assert dn == "cn" + ['='] + dn[3..];
      IndexOfAfter("cn", '=', dn[3..]);
    }
  }

  /** A principal whose first component has a key other than "cn" is rejected
      with "CN field not found". */
  lemma ParseGroupRejectsOtherKey(key: string, value: string, rest: string)
    requires key != "cn" && ',' !in key && '=' !in key && ',' !in value
    ensures var principalId := GroupScheme + "://" + key + "=" + value + rest;
      SliceInRange(principalId) && ParseGroupFromPrincipalId(principalId) == Err(CnFieldNotFound)
  {
    var dn := key + "=" + value + rest;
    assert GroupScheme + "://" + key + "=" + value + rest == GroupScheme + "://" + dn;
    DnOfScheme("://", dn);
    assert dn[..|key|] == key && dn[|key|] == '=';
    ComponentKey(dn, key);
    assert '=' in FirstComponent(dn) by {
      assert forall j :: 0 <= j < |key| ==> dn[j] == key[j];
      assert IndexOf(dn, ',') > |key|;
      assert FirstComponent(dn)[|key|] == '=';
    }
  }

  /** The valid case of the repository's table test,
      "openldap_group://cn=foo,ou=Groups,dc=example.com", gives "foo". */
  lemma ParseGroupValidExample()
    ensures var principalId := GroupScheme + "://cn=" + "foo" + ",ou=Groups,dc=example.com";
      SliceInRange(principalId) && ParseGroupFromPrincipalId(principalId) == Ok("foo")
  {
    ParseGroupAccepts("foo", ",ou=Groups,dc=example.com");
  }

  /** A rejected case of the repository's table test,
      "openldap_group://ou=Groups,dc=example.com": the first component is not "cn=...". */
  lemma ParseGroupNoCnExample()
    ensures var principalId := GroupScheme + "://" + "ou" + "=" + "Groups" + ",dc=example.com";
      SliceInRange(principalId) && ParseGroupFromPrincipalId(principalId) == Err(CnFieldNotFound)
  {
    ParseGroupRejectsOtherKey("ou", "Groups", ",dc=example.com");
  }

  /** The other rejected cases of the repository's table test: no scheme, and a different scheme. */
  lemma ParseGroupWrongSchemeExamples(noScheme: string, otherScheme: string)
    requires noScheme == "cn=foo,ou=Groups,dc=example.com"
    requires otherScheme == "openldap://cn=foo,ou=Groups,dc=example.com"
    ensures SliceInRange(noScheme) && SliceInRange(otherScheme)
    ensures ParseGroupFromPrincipalId(noScheme) == Err(InvalidPrincipal)
    ensures ParseGroupFromPrincipalId(otherScheme) == Err(InvalidPrincipal)
  {
    assert noScheme[0] != GroupScheme[0];
    assert otherScheme[8] != GroupScheme[8];
  }

  predicate Named(e: Entity) {
    e.id != "" && e.name != ""
  }

  /** parseEntities over already-decoded (id, name) records: items missing either
      field are skipped (and logged), the others are kept in order. */
  method ParseEntities(items: seq<Entity>) returns (entities: seq<Entity>)
    ensures forall e :: e in entities <==> e in items && e.id != "" && e.name != ""
    ensures entities == Seqs.Filter(items, Named)
  {
    entities := [];
    for i := 0 to |items|
      invariant entities == Seqs.Filter(items[..i], Named)
    {
      var name, id := items[i].name, items[i].id;
      if name == "" || id == "" {
        // skipped: the source logs the incomplete record and continues
      } else {
        entities := entities + [Entity(id, name)];
      }
      assert items[..i + 1][..i] == items[..i];
    }
    assert items[..|items|] == items;
    forall e | e in items && Named(e) ensures e in entities {
      Seqs.FilterComplete(items, Named, e);
    }
  }
}
