/** The bytes a request signature covers. */
module Auth {
  import opened Basics
  import opened Hashing

  const COLON: byte := 58

  /** Header fields by name, as a request carries them; a name has a list of values. */
  type Header = map<Bytes, seq<Bytes>>

  datatype Request = Request(verb: Bytes, uri: Bytes, header: Header, body: Bytes)

  const PREFIX := Ascii("x-tracehub-")
  const SIGNATURE := Ascii("x-tracehub-signature")
  const VERSION := Ascii("TRACEHUB-V1")
  const BODY_DIGEST := Ascii("body-sha256:")

  function LowerByte(b: byte): byte {
    if 65 <= b <= 90 then b + 32 else b
  }

  function UpperByte(b: byte): byte {
    if 97 <= b <= 122 then b - 32 else b
  }

  function Lower(s: Bytes): (r: Bytes)
    ensures |r| == |s|
  {
    seq(|s|, i requires 0 <= i < |s| => LowerByte(s[i]))
  }

  function Upper(s: Bytes): (r: Bytes)
    ensures |r| == |s|
  {
    seq(|s|, i requires 0 <= i < |s| => UpperByte(s[i]))
  }

  /** Bytes allowed in a field name: `token` characters of RFC 7230, section 3.2.6. */
  predicate IsTokenByte(b: byte) {
    || 48 <= b <= 57 || 65 <= b <= 90 || 97 <= b <= 122
    || b in Ascii("!#$%&'*+-.^_`|~")
  }

  /** The form a well-formed field name is stored under: capitals at its start and behind hyphens. */
  function Canonical(name: Bytes): (r: Bytes)
    ensures |r| == |name|
  {
    if exists i :: 0 <= i < |name| && !IsTokenByte(name[i]) then name
    else seq(|name|, i requires 0 <= i < |name| => CanonicalByte(name, i))
  }

  function CanonicalByte(name: Bytes, i: nat): byte
    requires i < |name|
  {
    if i == 0 || name[i - 1] == 45 then UpperByte(name[i]) else LowerByte(name[i])
  }

  /** The first value of a field, looked up under the canonical form of its name. */
  function Get(header: Header, name: Bytes): Bytes {
    var key := Canonical(name);
    if key in header && header[key] != [] then header[key][0] else []
  }

  /** Fields the signature covers: all of the service's own but the signature itself. */
  predicate Signed(name: Bytes) {
    PREFIX <= Lower(name) && Lower(name) != SIGNATURE
  }

  /** The field names of `done` that the signature covers and that read `lower` in lower case. */
  function Spelled(done: set<Bytes>, lower: Bytes): set<Bytes> {
    set name | name in done && Signed(name) && Lower(name) == lower
  }

  /** `names` lists, as often as they occur, the lower-case names of the signed fields. */
  ghost predicate ListsSigned(fields: set<Bytes>, names: seq<Bytes>) {
    forall lower :: multiset(names)[lower] == |Spelled(fields, lower)|
  }

  ghost predicate Sorted(names: seq<Bytes>) {
    forall i, j :: 0 <= i < j < |names| ==> !Before(names[j], names[i])
  }

  function Pairs(trim: Bytes -> Bytes, header: Header, names: seq<Bytes>): seq<(Bytes, Bytes)> {
    seq(|names|, i requires 0 <= i < |names| => (names[i], trim(Get(header, names[i]))))
  }

  function FieldLine(pair: (Bytes, Bytes)): Bytes {
    pair.0 + [COLON] + pair.1 + [NEWLINE]
  }

  function FieldLines(pairs: seq<(Bytes, Bytes)>): Bytes {
    if pairs == [] then [] else FieldLine(pairs[0]) + FieldLines(pairs[1..])
  }

  /** The canonical text of a request with these parts. */
  function Text(verb: Bytes, uri: Bytes, pairs: seq<(Bytes, Bytes)>, digest: Bytes): Bytes {
    VERSION + [NEWLINE] + verb + [NEWLINE] + uri + [NEWLINE] + FieldLines(pairs) + BODY_DIGEST + digest + [NEWLINE]
  }

  function Encode(trim: Bytes -> Bytes, h: Hasher, req: Request, names: seq<Bytes>): Bytes {
    Text(Upper(req.verb), req.uri, Pairs(trim, req.header, names), Ascii(Sha(h, req.body)))
  }

  // Sorting names.

  function InsertName(names: seq<Bytes>, x: Bytes): seq<Bytes> {
    if names == [] || !Before(x, names[|names| - 1]) then names + [x]
    else InsertName(names[..|names| - 1], x) + [names[|names| - 1]]
  }

  /** `sort.Strings`. */
  function SortNames(names: seq<Bytes>): seq<Bytes> {
    if names == [] then [] else InsertName(SortNames(names[..|names| - 1]), names[|names| - 1])
  }

  ghost predicate AtMost(names: seq<Bytes>, max: Bytes) {
    forall i :: 0 <= i < |names| ==> !Before(max, names[i])
  }

  lemma AtMostTransitive(a: Bytes, b: Bytes, c: Bytes)
    requires !Before(b, a) && !Before(c, b)
    ensures !Before(c, a)
  {
    BeforeTotal(a, b);
    BeforeTotal(b, c);
    BeforeTotal(a, c);
    if Before(a, b) && Before(b, c) { BeforeTransitive(a, b, c); }
  }

  lemma SortedSnoc(names: seq<Bytes>, x: Bytes)
    requires Sorted(names) && AtMost(names, x)
    ensures Sorted(names + [x])
  {
  }

  lemma {:induction false} InsertNameSorts(names: seq<Bytes>, x: Bytes)
    requires Sorted(names)
    ensures Sorted(InsertName(names, x)) && multiset(InsertName(names, x)) == multiset(names) + multiset{x}
    ensures forall max :: AtMost(names, max) && !Before(max, x) ==> AtMost(InsertName(names, x), max)
  {
    if names != [] {
      var rest, last := names[..|names| - 1], names[|names| - 1];
      assert names == rest + [last];
      if Before(x, last) {
        InsertNameSorts(rest, x);
        BeforeTotal(x, last);
        assert AtMost(rest, last);
        SortedSnoc(InsertName(rest, x), last);
        forall max | AtMost(names, max) && !Before(max, x)
          ensures AtMost(InsertName(names, x), max)
        {
          assert AtMost(rest, max);
        }
      } else {
        forall i | 0 <= i < |names|
          ensures !Before(x, names[i])
        {
          if i < |names| - 1 { AtMostTransitive(names[i], last, x); }
        }
        SortedSnoc(names, x);
      }
    }
  }

  lemma {:induction false} SortNamesSorts(names: seq<Bytes>)
    ensures Sorted(SortNames(names)) && multiset(SortNames(names)) == multiset(names)
  {
    if names != [] {
      var rest, last := names[..|names| - 1], names[|names| - 1];
      assert names == rest + [last];
      SortNamesSorts(rest);
      InsertNameSorts(SortNames(rest), last);
    }
  }

  /** The last of names in order is the greatest. */
  lemma LastIsGreatest(names: seq<Bytes>, x: Bytes)
    requires Sorted(names) && names != [] && x in names
    ensures !Before(names[|names| - 1], x)
  {
    var i :| 0 <= i < |names| && names[i] == x;
    BeforeTotal(x, x);
  }

  lemma SameMembers(a: seq<Bytes>, b: seq<Bytes>)
    requires multiset(a) == multiset(b)
    ensures |a| == |b|
    ensures a != [] ==> a[|a| - 1] in b && b[|b| - 1] in a
  {
    assert |multiset(a)| == |a| && |multiset(b)| == |b|;
    if a != [] {
      assert a[|a| - 1] in multiset(b) && b[|b| - 1] in multiset(a);
    }
  }

  lemma DropLastMultiset(names: seq<Bytes>)
    requires names != []
    ensures names == names[..|names| - 1] + [names[|names| - 1]]
    ensures multiset(names[..|names| - 1]) == multiset(names) - multiset{names[|names| - 1]}
  {
    assert names == names[..|names| - 1] + [names[|names| - 1]];
  }

  /** Names in order are determined by how often each occurs. */
  lemma {:induction false} SortedIsUnique(a: seq<Bytes>, b: seq<Bytes>)
    requires Sorted(a) && Sorted(b) && multiset(a) == multiset(b)
    ensures a == b
  {
    SameMembers(a, b);
    if a != [] {
      var x, y := a[|a| - 1], b[|b| - 1];
      LastIsGreatest(a, y);
      LastIsGreatest(b, x);
      BeforeTotal(x, y);
      DropLastMultiset(a);
      DropLastMultiset(b);
      SortedIsUnique(a[..|a| - 1], b[..|b| - 1]);
    }
  }

  // The canonical request.

  lemma ListOneMore(fields: set<Bytes>, names: seq<Bytes>, name: Bytes)
    requires ListsSigned(fields, names) && name !in fields
    ensures ListsSigned(fields + {name}, if Signed(name) then names + [Lower(name)] else names)
  {
    hide Lower;
    var more := if Signed(name) then names + [Lower(name)] else names;
    forall lower
      ensures multiset(more)[lower] == |Spelled(fields + {name}, lower)|
    {
      if Signed(name) && Lower(name) == lower {
        assert Spelled(fields + {name}, lower) == Spelled(fields, lower) + {name};
      } else {
        assert Spelled(fields + {name}, lower) == Spelled(fields, lower);
      }
    }
  }

  lemma ListNothing()
    ensures ListsSigned({}, [])
  {
    forall lower ensures Spelled({}, lower) == {} {
    }
  }

  lemma ListReordered(fields: set<Bytes>, a: seq<Bytes>, b: seq<Bytes>)
    requires ListsSigned(fields, a) && multiset(a) == multiset(b)
    ensures ListsSigned(fields, b)
  {
  }

  /** `canonicalRequest`. The fields come in any order; the text covers them sorted. */
  method CanonicalRequest(trim: Bytes -> Bytes, h: Hasher, req: Request) returns (text: Bytes)
    ensures exists names :: Sorted(names) && ListsSigned(req.header.Keys, names) && text == Encode(trim, h, req, names)
  {
    hide ListsSigned, Lower, Upper, Ascii, Sha, Get, SortNames;
    var names: seq<Bytes> := [];
    var todo := req.header.Keys;
    ListNothing();
    assert req.header.Keys - todo == {};
    while todo != {}
      invariant todo <= req.header.Keys && ListsSigned(req.header.Keys - todo, names)
      decreases todo
    {
      var name :| name in todo;
      var lower := Lower(name);
      ListOneMore(req.header.Keys - todo, names, name);
      if PREFIX <= lower && lower != SIGNATURE {
        names := names + [lower];
      }
      assert req.header.Keys - (todo - {name}) == req.header.Keys - todo + {name};
      todo := todo - {name};
    }
    assert req.header.Keys - todo == req.header.Keys;
    SortNamesSorts(names);
    ListReordered(req.header.Keys, names, SortNames(names));
    names := SortNames(names);
    text := VERSION + [NEWLINE] + Upper(req.verb) + [NEWLINE] + req.uri + [NEWLINE];
    ghost var head := text;
    var i := 0;
    ghost var pairs := Pairs(trim, req.header, names);
    assert head + FieldLines(pairs[..0]) == head;
    while i < |names|
      invariant 0 <= i <= |names|
      invariant text == head + FieldLines(pairs[..i])
    {
      FieldLinesNext(pairs, i, i + 1);
      ConcatAssociative(head, FieldLines(pairs[..i]), FieldLine(pairs[i]));
      text := text + (names[i] + [COLON] + trim(Get(req.header, names[i])) + [NEWLINE]);
      i := i + 1;
    }
    assert pairs[..i] == pairs;
    text := text + BODY_DIGEST + Ascii(Sha(h, req.body)) + [NEWLINE];
  }

  lemma {:induction false} FieldLinesConcat(a: seq<(Bytes, Bytes)>, b: seq<(Bytes, Bytes)>)
    ensures FieldLines(a + b) == FieldLines(a) + FieldLines(b)
  {
    hide FieldLine;
    if a == [] {
      assert a + b == b;
    } else {
      FieldLinesConcat(a[1..], b);
      assert (a + b)[1..] == a[1..] + b;
      ConcatAssociative(FieldLine(a[0]), FieldLines(a[1..]), FieldLines(b));
    }
  }

  lemma FieldLinesNext(pairs: seq<(Bytes, Bytes)>, i: nat, next: nat)
    requires i < |pairs| && next == i + 1
    ensures FieldLines(pairs[..next]) == FieldLines(pairs[..i]) + FieldLine(pairs[i])
  {
    hide FieldLine;
    assert pairs[..next] == pairs[..i] + [pairs[i]];
    FieldLinesConcat(pairs[..i], [pairs[i]]);
    assert [pairs[i]][1..] == [];
    ConcatUnit(FieldLine(pairs[i]));
  }

  /** The order in which the fields are visited makes no difference: the request determines the text. */
  lemma CanonicalIsUnique(trim: Bytes -> Bytes, h: Hasher, req: Request, a: seq<Bytes>, b: seq<Bytes>)
    requires Sorted(a) && ListsSigned(req.header.Keys, a) && Sorted(b) && ListsSigned(req.header.Keys, b)
    ensures Encode(trim, h, req, a) == Encode(trim, h, req, b)
  {
    assert multiset(a) == multiset(b) by {
      forall lower ensures multiset(a)[lower] == multiset(b)[lower] {
      }
    }
    SortedIsUnique(a, b);
  }

  // Decodability.

  predicate Without(s: Bytes, c: byte) {
    forall i :: 0 <= i < |s| ==> s[i] != c
  }

  /** A text ends where its first separator is. */
  lemma SplitIsUnique(a: Bytes, x: Bytes, b: Bytes, y: Bytes, c: byte)
    requires a + ([c] + x) == b + ([c] + y) && Without(a, c) && Without(b, c)
    ensures a == b && x == y
  {
    var s, t := a + ([c] + x), b + ([c] + y);
    assert forall i :: 0 <= i < |a| ==> s[i] == a[i];
    assert forall i :: 0 <= i < |b| ==> t[i] == b[i];
    assert s[|a|] == c && t[|b|] == c;
    DropLeft(a, [c] + x);
    DropLeft(b, [c] + y);
    DropLeft([c], x);
    DropLeft([c], y);
  }

  /** Names of the service's own fields, without a colon; values without a newline. */
  ghost predicate Decodable(pairs: seq<(Bytes, Bytes)>) {
    forall i :: 0 <= i < |pairs| ==> PREFIX <= pairs[i].0 && Without(pairs[i].0, COLON) && Without(pairs[i].1, NEWLINE)
  }

  lemma FieldLineShape(pair: (Bytes, Bytes), rest: Bytes)
    ensures FieldLine(pair) + rest == pair.0 + ([COLON] + (pair.1 + ([NEWLINE] + rest)))
  {
  }

  lemma FieldIsNotBody(pairs: seq<(Bytes, Bytes)>, rest: Bytes, digest: Bytes)
    requires Decodable(pairs) && pairs != []
    ensures FieldLines(pairs) + rest != BODY_DIGEST + digest
  {
    assert PREFIX[0] == 120 && BODY_DIGEST[0] == 98;
    assert pairs[0].0[0] == 120;
    FieldLineShape(pairs[0], FieldLines(pairs[1..]) + rest);
    ConcatAssociative(FieldLine(pairs[0]), FieldLines(pairs[1..]), rest);
    assert (FieldLines(pairs) + rest)[0] == 120;
    assert (BODY_DIGEST + digest)[0] == 98;
  }

  lemma {:induction false} FieldsAreUnique(ps: seq<(Bytes, Bytes)>, qs: seq<(Bytes, Bytes)>, d: Bytes, e: Bytes)
    requires Decodable(ps) && Decodable(qs)
    requires FieldLines(ps) + (BODY_DIGEST + d) == FieldLines(qs) + (BODY_DIGEST + e)
    ensures ps == qs && d == e
    decreases |ps|
  {
    hide FieldLine, Ascii;
    if ps == [] || qs == [] {
      ConcatUnit(BODY_DIGEST + d);
      ConcatUnit(BODY_DIGEST + e);
      if ps != [] { FieldIsNotBody(ps, BODY_DIGEST + d, e); }
      if qs != [] { FieldIsNotBody(qs, BODY_DIGEST + e, d); }
      DropLeft(BODY_DIGEST, d);
      DropLeft(BODY_DIGEST, e);
    } else {
      var p, q := FieldLines(ps[1..]) + (BODY_DIGEST + d), FieldLines(qs[1..]) + (BODY_DIGEST + e);
      ConcatAssociative(FieldLine(ps[0]), FieldLines(ps[1..]), BODY_DIGEST + d);
      ConcatAssociative(FieldLine(qs[0]), FieldLines(qs[1..]), BODY_DIGEST + e);
      FieldLineShape(ps[0], p);
      FieldLineShape(qs[0], q);
      SplitIsUnique(ps[0].0, ps[0].1 + ([NEWLINE] + p), qs[0].0, qs[0].1 + ([NEWLINE] + q), COLON);
      SplitIsUnique(ps[0].1, p, qs[0].1, q, NEWLINE);
      DecodableRest(ps);
      DecodableRest(qs);
      FieldsAreUnique(ps[1..], qs[1..], d, e);
      assert ps == [ps[0]] + ps[1..] && qs == [qs[0]] + qs[1..];
    }
  }

  lemma DecodableRest(pairs: seq<(Bytes, Bytes)>)
    requires Decodable(pairs) && pairs != []
    ensures Decodable(pairs[1..])
  {
    assert forall i :: 0 <= i < |pairs[1..]| ==> pairs[1..][i] == pairs[i + 1];
  }

  lemma TextShape(verb: Bytes, uri: Bytes, pairs: seq<(Bytes, Bytes)>, digest: Bytes)
    ensures Text(verb, uri, pairs, digest)
         == (VERSION + [NEWLINE])
            + (verb + ([NEWLINE] + (uri + ([NEWLINE] + (FieldLines(pairs) + (BODY_DIGEST + (digest + [NEWLINE])))))))
  {
    hide FieldLines, Ascii;
    var fields := FieldLines(pairs);
    var rest := BODY_DIGEST + (digest + [NEWLINE]);
    var head := VERSION + [NEWLINE] + verb + [NEWLINE] + uri + [NEWLINE];
    ConcatAssociative(head + fields, BODY_DIGEST, digest + [NEWLINE]);
    ConcatAssociative(head + fields + BODY_DIGEST, digest, [NEWLINE]);
    ConcatAssociative(head, fields, rest);
    ConcatAssociative(VERSION + [NEWLINE] + verb + [NEWLINE] + uri, [NEWLINE], fields + rest);
    ConcatAssociative(VERSION + [NEWLINE] + verb + [NEWLINE], uri, [NEWLINE] + (fields + rest));
    ConcatAssociative(VERSION + [NEWLINE] + verb, [NEWLINE], uri + ([NEWLINE] + (fields + rest)));
    ConcatAssociative(VERSION + [NEWLINE], verb, [NEWLINE] + (uri + ([NEWLINE] + (fields + rest))));
  }

  /** The text determines its parts. */
  lemma TextIsUnique(verb: Bytes, uri: Bytes, ps: seq<(Bytes, Bytes)>, d: Bytes,
                     otherVerb: Bytes, otherUri: Bytes, qs: seq<(Bytes, Bytes)>, e: Bytes)
    requires Without(verb, NEWLINE) && Without(uri, NEWLINE) && Decodable(ps)
    requires Without(otherVerb, NEWLINE) && Without(otherUri, NEWLINE) && Decodable(qs)
    requires Text(verb, uri, ps, d) == Text(otherVerb, otherUri, qs, e)
    ensures verb == otherVerb && uri == otherUri && ps == qs && d == e
  {
    hide FieldLines, Ascii, Text;
    TextShape(verb, uri, ps, d);
    TextShape(otherVerb, otherUri, qs, e);
    var p := FieldLines(ps) + (BODY_DIGEST + (d + [NEWLINE]));
    var q := FieldLines(qs) + (BODY_DIGEST + (e + [NEWLINE]));
    DropLeft(VERSION + [NEWLINE], verb + ([NEWLINE] + (uri + ([NEWLINE] + p))));
    DropLeft(VERSION + [NEWLINE], otherVerb + ([NEWLINE] + (otherUri + ([NEWLINE] + q))));
    SplitIsUnique(verb, uri + ([NEWLINE] + p), otherVerb, otherUri + ([NEWLINE] + q), NEWLINE);
    SplitIsUnique(uri, p, otherUri, q, NEWLINE);
    FieldsAreUnique(ps, qs, d + [NEWLINE], e + [NEWLINE]);
    assert (d + [NEWLINE])[..|d|] == d && (e + [NEWLINE])[..|e|] == e;
  }

  /** Every listed name is one of the service's own. */
  lemma ListedNamesAreSigned(fields: set<Bytes>, names: seq<Bytes>, i: nat) returns (name: Bytes)
    requires ListsSigned(fields, names) && i < |names|
    ensures name in fields && Signed(name) && Lower(name) == names[i]
  {
    assert names[i] in multiset(names);
    assert |Spelled(fields, names[i])| > 0;
    name :| name in Spelled(fields, names[i]);
  }

  /** Verb and URI without a newline, names without a colon, values without a newline. */
  ghost predicate Clean(trim: Bytes -> Bytes, req: Request, names: seq<Bytes>) {
    && Without(Upper(req.verb), NEWLINE) && Without(req.uri, NEWLINE)
    && forall i :: 0 <= i < |names| ==> Without(names[i], COLON) && Without(trim(Get(req.header, names[i])), NEWLINE)
  }

  /**
   * The canonical request is uniquely decodable: two clean requests have the same text exactly when they agree
   * on the upper-case verb, the URI, the sorted list of signed names with their values, and the body digest.
   */
  lemma CanonicalDecodes(trim: Bytes -> Bytes, h: Hasher, req: Request, names: seq<Bytes>, other: Request,
                         otherNames: seq<Bytes>)
    requires ListsSigned(req.header.Keys, names) && Clean(trim, req, names)
    requires ListsSigned(other.header.Keys, otherNames) && Clean(trim, other, otherNames)
    ensures Encode(trim, h, req, names) == Encode(trim, h, other, otherNames) <==>
      && Upper(req.verb) == Upper(other.verb)
      && req.uri == other.uri
      && Pairs(trim, req.header, names) == Pairs(trim, other.header, otherNames)
      && Ascii(Sha(h, req.body)) == Ascii(Sha(h, other.body))
  {
    hide Text, Upper, Ascii, Sha, Get;
    CleanDecodes(trim, req, names);
    CleanDecodes(trim, other, otherNames);
    if Encode(trim, h, req, names) == Encode(trim, h, other, otherNames) {
      TextIsUnique(Upper(req.verb), req.uri, Pairs(trim, req.header, names), Ascii(Sha(h, req.body)),
                   Upper(other.verb), other.uri, Pairs(trim, other.header, otherNames), Ascii(Sha(h, other.body)));
    }
  }

  lemma CleanDecodes(trim: Bytes -> Bytes, req: Request, names: seq<Bytes>)
    requires ListsSigned(req.header.Keys, names) && Clean(trim, req, names)
    ensures Decodable(Pairs(trim, req.header, names))
  {
    hide ListsSigned, Upper, Ascii, Get, Lower;
    forall i | 0 <= i < |names|
      ensures PREFIX <= names[i]
    {
      var name := ListedNamesAreSigned(req.header.Keys, names, i);
    }
  }

  // Signing and verifying.

  lemma CanonicalLower(name: Bytes)
    ensures Lower(Canonical(name)) == Lower(name) && Lower(Lower(name)) == Lower(name)
  {
    assert forall i :: 0 <= i < |name| ==> Lower(Canonical(name))[i] == Lower(name)[i];
  }

  /** The signature itself, stored into the header after signing, does not change what is verified. */
  lemma SignatureIsNotSigned(trim: Bytes -> Bytes, h: Hasher, req: Request, names: seq<Bytes>, signature: Bytes)
    requires ListsSigned(req.header.Keys, names)
    ensures var sent := req.(header := req.header[Canonical(SIGNATURE) := [signature]]);
      && ListsSigned(sent.header.Keys, names)
      && Encode(trim, h, sent, names) == Encode(trim, h, req, names)
  {
    hide Text, Upper, Ascii, Sha, Canonical, Lower;
    var key := Canonical(SIGNATURE);
    var header := req.header[key := [signature]];
    CanonicalLower(SIGNATURE);
    SignatureIsLower();
    forall lower
      ensures Spelled(header.Keys, lower) == Spelled(req.header.Keys, lower)
    {
    }
    forall i | 0 <= i < |names|
      ensures Get(header, names[i]) == Get(req.header, names[i])
    {
      var name := ListedNamesAreSigned(req.header.Keys, names, i);
      CanonicalLower(name);
      CanonicalLower(names[i]);
    }
    assert Pairs(trim, header, names) == Pairs(trim, req.header, names);
  }

  lemma SignatureIsLower()
    ensures Lower(SIGNATURE) == SIGNATURE
  {
    assert forall i :: 0 <= i < |SIGNATURE| ==> LowerByte(SIGNATURE[i]) == SIGNATURE[i];
  }
}
