/** What a signature covers, in terms of the header fields as a request carries them. */
module SignedFields {
  import opened Auth
  import opened Basics
  import opened Hashing

  const UPPER_CASE := Ascii("ABCDEFGHIJKLMNOPQRSTUVWXYZ")
  const LOWER_CASE := Ascii("abcdefghijklmnopqrstuvwxyz")

  lemma Capital(i: nat)
    requires i < 26
    ensures UPPER_CASE[i] as int == 65 + i
  {
  }

  lemma Small(i: nat)
    requires i < 26
    ensures LOWER_CASE[i] as int == 97 + i
  {
  }

  /** Letters change case by the alphabet; no other byte changes. */
  lemma CaseTables(b: byte)
    ensures forall i: nat :: i < 26 ==> LowerByte(UPPER_CASE[i]) == LOWER_CASE[i]
    ensures forall i: nat :: i < 26 ==> UpperByte(LOWER_CASE[i]) == UPPER_CASE[i]
    ensures b !in UPPER_CASE ==> LowerByte(b) == b
    ensures b !in LOWER_CASE ==> UpperByte(b) == b
  {
    forall i: nat | i < 26
      ensures LowerByte(UPPER_CASE[i]) == LOWER_CASE[i] && UpperByte(LOWER_CASE[i]) == UPPER_CASE[i]
    {
      Capital(i);
      Small(i);
    }
    if 65 <= b <= 90 { Capital(b as nat - 65); }
    if 97 <= b <= 122 { Small(b as nat - 97); }
  }

  predicate IsToken(name: Bytes) {
    forall i :: 0 <= i < |name| ==> IsTokenByte(name[i])
  }

  /** However a field name is spelled, it is stored under one key. */
  lemma CanonicalIgnoresCase(a: Bytes, b: Bytes)
    requires IsToken(a) && IsToken(b) && Lower(a) == Lower(b)
    ensures Canonical(a) == Canonical(b)
  {
    hide IsTokenByte;
    assert |a| == |b|;
    forall i | 0 <= i < |a|
      ensures LowerByte(a[i]) == LowerByte(b[i])
    {
      assert Lower(a)[i] == Lower(b)[i];
    }
    assert forall i :: 0 <= i < |a| ==> Canonical(a)[i] == Canonical(b)[i];
  }

  const HYPHEN: byte := 45

  /** Words between hyphens are capitalised each on its own. */
  lemma CanonicalWords(a: Bytes, b: Bytes)
    requires IsToken(a) && IsToken(b)
    ensures IsToken(a + [HYPHEN] + b) && Canonical(a + [HYPHEN] + b) == Canonical(a) + [HYPHEN] + Canonical(b)
  {
    HyphenIsToken();
    var all := a + [HYPHEN] + b;
    hide IsTokenByte, Canonical;
    assert IsToken(all);
    var both := Canonical(a) + [HYPHEN] + Canonical(b);
    forall i | 0 <= i < |all|
      ensures Canonical(all)[i] == both[i]
    {
      CanonicalAt(all, i);
      if i < |a| { CanonicalAt(a, i); }
      if i > |a| { CanonicalAt(b, i - |a| - 1); }
    }
  }

  lemma CanonicalAt(name: Bytes, i: nat)
    requires IsToken(name) && i < |name|
    ensures Canonical(name)[i] == CanonicalByte(name, i)
  {
    hide IsTokenByte, CanonicalByte;
  }

  lemma HyphenIsToken()
    ensures IsTokenByte(HYPHEN) && !IsTokenByte(SPACE) && !IsTokenByte(COLON)
  {
    assert Ascii("!#$%&'*+-.^_`|~")[8] == HYPHEN;
  }

  lemma CapitalWord(letters: string, expected: string)
    requires |letters| == |expected| > 0
    requires forall i :: 0 <= i < |letters| ==> 'a' <= letters[i] <= 'z'
    requires expected == [letters[0] - 'a' + 'A'] + letters[1..]
    ensures IsToken(Ascii(letters)) && Canonical(Ascii(letters)) == Ascii(expected)
  {
    LettersAreTokens(letters);
    hide IsToken, IsTokenByte, Canonical;
    var word := Ascii(letters);
    forall i | 0 <= i < |word|
      ensures Canonical(word)[i] == Ascii(expected)[i]
    {
      CanonicalAt(word, i);
      assert expected[i] == if i == 0 then letters[0] - 'a' + 'A' else letters[i];
    }
  }

  lemma LettersAreTokens(letters: string)
    requires forall i :: 0 <= i < |letters| ==> 'a' <= letters[i] <= 'z'
    ensures IsToken(Ascii(letters))
  {
  }

  lemma AsciiWords(a: string, b: string)
    ensures Ascii(a + "-" + b) == Ascii(a) + [HYPHEN] + Ascii(b)
  {
  }

  /** How the names of the service's own fields are stored. */
  lemma CanonicalNames()
    ensures Canonical(Ascii("x-tracehub-device")) == Ascii("X-Tracehub-Device")
    ensures Canonical(Ascii("x-tracehub-signature")) == Ascii("X-Tracehub-Signature")
    ensures Canonical(Ascii("x-tracehub-key-id")) == Ascii("X-Tracehub-Key-Id")
  {
    hide IsToken, Canonical, Ascii;
    CapitalWord("device", "Device");
    CapitalWord("signature", "Signature");
    CapitalWord("key", "Key");
    CapitalWord("id", "Id");
    OwnName("device", "Device");
    OwnName("signature", "Signature");
    OwnName("key", "Key");
    Hyphenated("x-tracehub-" + "key", "id", "X-Tracehub-" + "Key", "Id");
    Spellings();
  }

  lemma Spellings()
    ensures "x-tracehub-" + "device" == "x-tracehub-device" && "X-Tracehub-" + "Device" == "X-Tracehub-Device"
    ensures "x-tracehub-" + "signature" == "x-tracehub-signature"
    ensures "X-Tracehub-" + "Signature" == "X-Tracehub-Signature"
    ensures "x-tracehub-" + "key" + "-" + "id" == "x-tracehub-key-id"
    ensures "X-Tracehub-" + "Key" + "-" + "Id" == "X-Tracehub-Key-Id"
  {
  }

  lemma OwnName(word: string, stored: string)
    requires IsToken(Ascii(word)) && Canonical(Ascii(word)) == Ascii(stored)
    ensures IsToken(Ascii("x-tracehub-" + word))
    ensures Canonical(Ascii("x-tracehub-" + word)) == Ascii("X-Tracehub-" + stored)
  {
    hide IsToken, Canonical, Ascii;
    CapitalWord("x", "X");
    CapitalWord("tracehub", "Tracehub");
    Hyphenated("x", "tracehub", "X", "Tracehub");
    Hyphenated("x" + "-" + "tracehub", word, "X" + "-" + "Tracehub", stored);
    assert "x" + "-" + "tracehub" + "-" == "x-tracehub-" && "X" + "-" + "Tracehub" + "-" == "X-Tracehub-";
  }

  lemma Hyphenated(a: string, b: string, storedA: string, storedB: string)
    requires IsToken(Ascii(a)) && Canonical(Ascii(a)) == Ascii(storedA)
    requires IsToken(Ascii(b)) && Canonical(Ascii(b)) == Ascii(storedB)
    ensures IsToken(Ascii(a + "-" + b)) && Canonical(Ascii(a + "-" + b)) == Ascii(storedA + "-" + storedB)
  {
    hide IsToken, Canonical, Ascii;
    CanonicalWords(Ascii(a), Ascii(b));
    AsciiWords(a, b);
    AsciiWords(storedA, storedB);
  }

  lemma TokenLower(name: Bytes)
    requires IsToken(name)
    ensures IsToken(Lower(name)) && Without(Lower(name), COLON)
  {
    HyphenIsToken();
    forall i | 0 <= i < |name|
      ensures IsTokenByte(Lower(name)[i])
    {
      assert IsTokenByte(name[i]);
    }
  }

  // The header fields of a request, and the lines of its text.

  /** Field `key` is one the signature covers: one of the service's own, but not the signature. */
  predicate Covered(key: Bytes) {
    Ascii("x-tracehub-") <= Lower(key) && Lower(key) != Ascii("x-tracehub-signature")
  }

  /** Header fields as a server or client holds them: tokens in their stored form, each with a value. */
  ghost predicate WellFormed(header: Header) {
    forall key :: key in header ==> IsToken(key) && Canonical(key) == key && header[key] != []
  }

  lemma FirstValue(header: Header, key: Bytes)
    requires key in header && IsToken(key) && Canonical(key) == key && header[key] != []
    ensures Get(header, Lower(key)) == header[key][0]
  {
    hide Lower, Canonical, IsToken;
    TokenLower(key);
    CanonicalLower(key);
    CanonicalIgnoresCase(Lower(key), key);
  }

  lemma CoveredIsListed(fields: set<Bytes>, names: seq<Bytes>, key: Bytes) returns (i: nat)
    requires ListsSigned(fields, names) && key in fields && Covered(key)
    ensures i < |names| && names[i] == Lower(key)
  {
    hide Lower, Ascii;
    assert key in Spelled(fields, Lower(key));
    assert multiset(names)[Lower(key)] > 0;
    assert Lower(key) in names;
    i :| 0 <= i < |names| && names[i] == Lower(key);
  }

  /** The text holds, on a line of its own, the lower-case name of each covered field and its first value, trimmed. */
  lemma ValueIsCovered(trim: Bytes -> Bytes, h: Hasher, req: Request, names: seq<Bytes>, key: Bytes)
    returns (before: Bytes, after: Bytes)
    requires ListsSigned(req.header.Keys, names)
    requires key in req.header && IsToken(key) && Canonical(key) == key && req.header[key] != [] && Covered(key)
    ensures Encode(trim, h, req, names)
         == before + [NEWLINE] + (Lower(key) + [COLON] + trim(req.header[key][0]) + [NEWLINE]) + after
  {
    hide Lower, Ascii, Canonical, IsToken, Get, Sha, Upper, Text, FieldLines, Covered, ListsSigned, FieldLine;
    var i := CoveredIsListed(req.header.Keys, names, key);
    FirstValue(req.header, key);
    var pairs := Pairs(trim, req.header, names);
    assert pairs[..i] + pairs[i..] == pairs;
    before, after := LineOfText(Upper(req.verb), req.uri, pairs, Ascii(Sha(h, req.body)), i);
    FieldLineIs(pairs[i]);
  }

  lemma FieldLineIs(pair: (Bytes, Bytes))
    ensures FieldLine(pair) == pair.0 + [COLON] + pair.1 + [NEWLINE]
  {
  }

  lemma LineOfText(verb: Bytes, uri: Bytes, pairs: seq<(Bytes, Bytes)>, digest: Bytes, i: nat)
    returns (before: Bytes, after: Bytes)
    requires i < |pairs|
    ensures Text(verb, uri, pairs, digest) == before + [NEWLINE] + FieldLine(pairs[i]) + after
  {
    hide FieldLine, FieldLines, Ascii;
    var head := VERSION + [NEWLINE] + verb + [NEWLINE] + uri + [NEWLINE];
    var fields, line, rest := FieldLines(pairs[..i]), FieldLine(pairs[i]), FieldLines(pairs[i + 1..]);
    FieldLinesNext(pairs, i, i + 1);
    FieldLinesConcat(pairs[..i + 1], pairs[i + 1..]);
    assert pairs[..i + 1] + pairs[i + 1..] == pairs;
    EndsInNewline(head, pairs, i);
    before := (head + fields)[..|head + fields| - 1];
    after := rest + (BODY_DIGEST + digest + [NEWLINE]);
    assert before + [NEWLINE] == head + fields;
    Assemble(head, fields, line, rest, BODY_DIGEST, digest);
  }

  lemma EndsInNewline(head: Bytes, pairs: seq<(Bytes, Bytes)>, i: nat)
    requires Terminated(head) && i <= |pairs|
    ensures Terminated(head + FieldLines(pairs[..i]))
  {
    if i > 0 {
      hide FieldLines;
      FieldLinesNext(pairs, i - 1, i);
    } else {
      ConcatUnit(head);
    }
  }

  lemma Assemble(head: Bytes, fields: Bytes, line: Bytes, rest: Bytes, marker: Bytes, digest: Bytes)
    ensures head + (fields + line + rest) + marker + digest + [NEWLINE]
         == head + fields + line + (rest + (marker + digest + [NEWLINE]))
  {
  }

  /** Verb, URI and trimmed values without a newline. */
  ghost predicate CleanFields(trim: Bytes -> Bytes, req: Request) {
    && WellFormed(req.header) && Without(Upper(req.verb), NEWLINE) && Without(req.uri, NEWLINE)
    && forall key :: key in req.header && Covered(key) ==> Without(trim(req.header[key][0]), NEWLINE)
  }

  /** The first values of the covered fields agree after trimming; a covered field that one has the other has too. */
  ghost predicate SameCovered(trim: Bytes -> Bytes, a: Header, b: Header)
    requires WellFormed(a) && WellFormed(b)
  {
    forall key :: Covered(key) ==>
      && (key in a <==> key in b)
      && (key in a && key in b ==> trim(a[key][0]) == trim(b[key][0]))
  }

  /** The field a listed name stands for. */
  lemma ListedField(header: Header, names: seq<Bytes>, i: nat) returns (key: Bytes)
    requires ListsSigned(header.Keys, names) && WellFormed(header) && i < |names|
    ensures key in header && Covered(key) && IsToken(key) && Canonical(key) == key && Lower(key) == names[i]
    ensures Get(header, names[i]) == header[key][0]
  {
    hide Lower, Ascii, Canonical, IsToken, Get, ListsSigned;
    key := ListedNamesAreSigned(header.Keys, names, i);
    FirstValue(header, key);
  }

  lemma CleanIsClean(trim: Bytes -> Bytes, req: Request, names: seq<Bytes>)
    requires ListsSigned(req.header.Keys, names) && CleanFields(trim, req)
    ensures Clean(trim, req, names)
  {
    hide Lower, Ascii, Canonical, IsToken, Get, ListsSigned, Upper, Covered, Without;
    forall i | 0 <= i < |names|
      ensures Without(names[i], COLON) && Without(trim(Get(req.header, names[i])), NEWLINE)
    {
      var key := ListedField(req.header, names, i);
      TokenLower(key);
    }
  }

  /** Two stored keys with the same lower-case form are the same key. */
  lemma SameKey(a: Bytes, b: Bytes)
    requires IsToken(a) && Canonical(a) == a && IsToken(b) && Canonical(b) == b && Lower(a) == Lower(b)
    ensures a == b
  {
    hide Lower, Canonical, IsToken;
    CanonicalIgnoresCase(a, b);
  }

  lemma CoveredByOther(trim: Bytes -> Bytes, a: Header, xs: seq<Bytes>, b: Header, ys: seq<Bytes>, key: Bytes)
    requires WellFormed(a) && ListsSigned(a.Keys, xs) && WellFormed(b) && ListsSigned(b.Keys, ys)
    requires Pairs(trim, a, xs) == Pairs(trim, b, ys) && key in a && Covered(key)
    ensures key in b && trim(a[key][0]) == trim(b[key][0])
  {
    hide Lower, Ascii, Canonical, IsToken, Get, ListsSigned, Covered;
    var i := CoveredIsListed(a.Keys, xs, key);
    assert Pairs(trim, a, xs)[i] == Pairs(trim, b, ys)[i];
    var own := ListedField(a, xs, i);
    var other := ListedField(b, ys, i);
    SameKey(own, key);
    SameKey(other, key);
  }

  lemma SamePairs(trim: Bytes -> Bytes, a: Header, xs: seq<Bytes>, b: Header, ys: seq<Bytes>)
    requires WellFormed(a) && ListsSigned(a.Keys, xs) && Sorted(xs)
    requires WellFormed(b) && ListsSigned(b.Keys, ys) && Sorted(ys)
    requires SameCovered(trim, a, b)
    ensures Pairs(trim, a, xs) == Pairs(trim, b, ys)
  {
    hide Lower, Ascii, Canonical, IsToken, Get, Sorted;
    forall lower
      ensures multiset(xs)[lower] == multiset(ys)[lower]
    {
      assert Spelled(a.Keys, lower) == Spelled(b.Keys, lower);
    }
    assert multiset(xs) == multiset(ys);
    SortedIsUnique(xs, ys);
    hide ListsSigned, Covered;
    forall i | 0 <= i < |xs|
      ensures trim(Get(a, xs[i])) == trim(Get(b, ys[i]))
    {
      var own := ListedField(a, xs, i);
      var other := ListedField(b, ys, i);
      SameKey(own, other);
    }
  }

  /**
   * Two clean requests have the same text exactly when they agree on the upper-case verb, the URI, the digest of
   * the body, which of the covered header fields they have, and the trimmed first value of each of those.
   */
  lemma TextCoversFields(trim: Bytes -> Bytes, h: Hasher, req: Request, names: seq<Bytes>, other: Request,
                         otherNames: seq<Bytes>)
    requires ListsSigned(req.header.Keys, names) && Sorted(names) && CleanFields(trim, req)
    requires ListsSigned(other.header.Keys, otherNames) && Sorted(otherNames) && CleanFields(trim, other)
    ensures Encode(trim, h, req, names) == Encode(trim, h, other, otherNames) <==>
      && Upper(req.verb) == Upper(other.verb) && req.uri == other.uri
      && Ascii(Sha(h, req.body)) == Ascii(Sha(h, other.body))
      && SameCovered(trim, req.header, other.header)
  {
    hide Lower, Upper, Ascii, Sha, Get, ListsSigned, Sorted, Encode, Pairs, Covered, IsToken, Canonical, Without;
    CleanIsClean(trim, req, names);
    CleanIsClean(trim, other, otherNames);
    CanonicalDecodes(trim, h, req, names, other, otherNames);
    if Pairs(trim, req.header, names) == Pairs(trim, other.header, otherNames) {
      forall key | Covered(key)
        ensures key in req.header ==> key in other.header && trim(req.header[key][0]) == trim(other.header[key][0])
        ensures key in other.header ==> key in req.header
      {
        if key in req.header { CoveredByOther(trim, req.header, names, other.header, otherNames, key); }
        if key in other.header { CoveredByOther(trim, other.header, otherNames, req.header, names, key); }
      }
    }
    if SameCovered(trim, req.header, other.header) {
      SamePairs(trim, req.header, names, other.header, otherNames);
    }
  }

  /** Fields that are not covered, the signature among them, leave the text as it is. */
  lemma OthersAreNotCovered(trim: Bytes -> Bytes, h: Hasher, req: Request, names: seq<Bytes>, key: Bytes,
                            values: seq<Bytes>)
    requires ListsSigned(req.header.Keys, names) && !Covered(key)
    ensures var sent := req.(header := req.header[key := values]);
      ListsSigned(sent.header.Keys, names) && Encode(trim, h, sent, names) == Encode(trim, h, req, names)
  {
    hide Text, Upper, Ascii, Sha, Canonical, Lower;
    var header := req.header[key := values];
    forall lower
      ensures Spelled(header.Keys, lower) == Spelled(req.header.Keys, lower)
    {
    }
    forall i | 0 <= i < |names|
      ensures Get(header, names[i]) == Get(req.header, names[i])
    {
      var name := ListedNamesAreSigned(req.header.Keys, names, i);
      CanonicalLower(name);
      CanonicalLower(names[i]);
    }
    assert Pairs(trim, header, names) == Pairs(trim, req.header, names);
  }

  // The text a client signs.

  const DEVICE := Ascii("X-Tracehub-Device")
  const KEY_ID := Ascii("X-Tracehub-Key-Id")

  lemma LowerFields()
    ensures Lower(DEVICE) == Ascii("x-tracehub-device") && Lower(KEY_ID) == Ascii("x-tracehub-key-id")
  {
    hide Lower, Ascii;
    CanonicalNames();
    CanonicalLower(Ascii("x-tracehub-device"));
    CanonicalLower(Ascii("x-tracehub-key-id"));
    AlreadyLower("x-tracehub-device");
    AlreadyLower("x-tracehub-key-id");
  }

  lemma AlreadyLower(s: string)
    requires forall i :: 0 <= i < |s| ==> s[i] == '-' || 'a' <= s[i] <= 'z'
    ensures Lower(Ascii(s)) == Ascii(s)
  {
  }

  lemma AsciiConcat(a: string, b: string)
    ensures Ascii(a + b) == Ascii(a) + Ascii(b)
  {
  }

  lemma OwnFields()
    ensures Signed(DEVICE) && Signed(KEY_ID) && DEVICE != KEY_ID
    ensures Sorted([Ascii("x-tracehub-device"), Ascii("x-tracehub-key-id")])
  {
    LowerFields();
    hide Lower;
    AsciiConcat("x-tracehub-", "device");
    AsciiConcat("x-tracehub-", "key-id");
    assert "x-tracehub-" + "device" == "x-tracehub-device" && "x-tracehub-" + "key-id" == "x-tracehub-key-id";
    AsciiConcat("d", "evice");
    AsciiConcat("k", "ey-id");
    assert "d" + "evice" == "device" && "k" + "ey-id" == "key-id";
    InOrder(Ascii("evice"), Ascii("ey-id"));
  }

  lemma InOrder(s: Bytes, t: Bytes)
    ensures Sorted([PREFIX + (Ascii("d") + s), PREFIX + (Ascii("k") + t)])
    ensures PREFIX + (Ascii("d") + s) != PREFIX + (Ascii("k") + t)
  {
    hide Before;
    var x: byte, y: byte := 100, 107;
    assert Ascii("d") == [x] && Ascii("k") == [y];
    hide Ascii;
    BeforeIsByteWise(PREFIX, y, x, t, s);
    BeforeTotal(PREFIX + [x] + s, PREFIX + [x] + s);
    BeforeIsByteWise(PREFIX, x, y, s, t);
    ConcatAssociative(PREFIX, [x], s);
    ConcatAssociative(PREFIX, [y], t);
  }

  lemma TwoNames(names: seq<Bytes>)
    requires ListsSigned({DEVICE, KEY_ID}, names) && Sorted(names)
    ensures names == [Ascii("x-tracehub-device"), Ascii("x-tracehub-key-id")]
  {
    hide Lower, Ascii, Sorted, ListsSigned, Signed;
    OwnFields();
    LowerFields();
    ListNothing();
    ListOneMore({}, [], DEVICE);
    assert [] + [Lower(DEVICE)] == [Lower(DEVICE)] && {} + {DEVICE} == {DEVICE};
    ListOneMore({DEVICE}, [Lower(DEVICE)], KEY_ID);
    var both := [Ascii("x-tracehub-device"), Ascii("x-tracehub-key-id")];
    assert [Lower(DEVICE)] + [Lower(KEY_ID)] == both && {DEVICE} + {KEY_ID} == {DEVICE, KEY_ID};
    SameList({DEVICE, KEY_ID}, names, both);
    SortedIsUnique(names, both);
  }

  lemma SameList(fields: set<Bytes>, a: seq<Bytes>, b: seq<Bytes>)
    requires ListsSigned(fields, a) && ListsSigned(fields, b)
    ensures multiset(a) == multiset(b)
  {
    forall lower ensures multiset(a)[lower] == multiset(b)[lower] {
    }
  }

  lemma Joined()
    ensures "TRACEHUB-V1" + "\n" == "TRACEHUB-V1\n"
    ensures "\n" + "x-tracehub-device:" == "\nx-tracehub-device:" && "x-tracehub-device" + ":" == "x-tracehub-device:"
    ensures "\n" + "x-tracehub-key-id:" == "\nx-tracehub-key-id:" && "x-tracehub-key-id" + ":" == "x-tracehub-key-id:"
    ensures "\n" + "body-sha256:" == "\nbody-sha256:"
  {
  }

  lemma Pieces()
    ensures Ascii("TRACEHUB-V1\n") == VERSION + [NEWLINE] && Ascii("\n") == [NEWLINE]
    ensures Ascii("\nx-tracehub-device:") == [NEWLINE] + Ascii("x-tracehub-device") + [COLON]
    ensures Ascii("\nx-tracehub-key-id:") == [NEWLINE] + Ascii("x-tracehub-key-id") + [COLON]
    ensures Ascii("\nbody-sha256:") == [NEWLINE] + BODY_DIGEST
  {
    hide Ascii;
    AsciiConcat("TRACEHUB-V1", "\n");
    AsciiConcat("\n", "x-tracehub-device:");
    AsciiConcat("x-tracehub-device", ":");
    AsciiConcat("\n", "x-tracehub-key-id:");
    AsciiConcat("x-tracehub-key-id", ":");
    AsciiConcat("\n", "body-sha256:");
    Separators();
    Joined();
    ConcatAssociative([NEWLINE], Ascii("x-tracehub-device"), [COLON]);
    ConcatAssociative([NEWLINE], Ascii("x-tracehub-key-id"), [COLON]);
  }

  lemma Separators()
    ensures Ascii("\n") == [NEWLINE] && Ascii(":") == [COLON]
  {
  }

  /** The text of a request in which the client has set these two fields and has yet to add the signature. */
  lemma SignedText(trim: Bytes -> Bytes, h: Hasher, req: Request, names: seq<Bytes>, device: Bytes, keyId: Bytes)
    requires req.header == map[DEVICE := [device], KEY_ID := [keyId]]
    requires ListsSigned(req.header.Keys, names) && Sorted(names)
    ensures Encode(trim, h, req, names)
         == Ascii("TRACEHUB-V1\n") + Upper(req.verb) + Ascii("\n") + req.uri
            + Ascii("\nx-tracehub-device:") + trim(device) + Ascii("\nx-tracehub-key-id:") + trim(keyId)
            + Ascii("\nbody-sha256:") + Ascii(Sha(h, req.body)) + Ascii("\n")
  {
    hide Lower, Ascii, ListsSigned, Sorted, Sha, Upper, Canonical;
    assert req.header.Keys == {DEVICE, KEY_ID};
    TwoNames(names);
    CanonicalNames();
    OwnFields();
    var first, second := (names[0], trim(device)), (names[1], trim(keyId));
    assert Get(req.header, names[0]) == req.header[DEVICE][0] && Get(req.header, names[1]) == req.header[KEY_ID][0];
    assert Pairs(trim, req.header, names) == [first, second];
    TwoLines(Upper(req.verb), req.uri, first, second, Ascii(Sha(h, req.body)));
    Pieces();
  }

  lemma TwoLines(verb: Bytes, uri: Bytes, first: (Bytes, Bytes), second: (Bytes, Bytes), digest: Bytes)
    ensures Text(verb, uri, [first, second], digest)
         == (VERSION + [NEWLINE]) + verb + [NEWLINE] + uri + ([NEWLINE] + first.0 + [COLON]) + first.1
            + ([NEWLINE] + second.0 + [COLON]) + second.1 + ([NEWLINE] + BODY_DIGEST) + digest + [NEWLINE]
  {
    hide Ascii;
    assert [first, second][1..] == [second];
    assert [second][1..] == [];
    ConcatUnit(FieldLine(second));
    var head := VERSION + [NEWLINE] + verb + [NEWLINE] + uri;
    ThreeLines(head, first.0 + [COLON], first.1, second.0 + [COLON], second.1);
    ConcatAssociative([NEWLINE], first.0, [COLON]);
    ConcatAssociative([NEWLINE], second.0, [COLON]);
    assert FieldLines([second]) == FieldLine(second);
    assert FieldLines([first, second]) == FieldLine(first) + FieldLine(second);
    LastLine(head + ([NEWLINE] + first.0 + [COLON]) + first.1 + ([NEWLINE] + second.0 + [COLON]) + second.1);
  }

  lemma LastLine(head: Bytes)
    ensures head + [NEWLINE] + BODY_DIGEST == head + ([NEWLINE] + BODY_DIGEST)
  {
    ConcatAssociative(head, [NEWLINE], BODY_DIGEST);
  }

  lemma ThreeLines(head: Bytes, a: Bytes, b: Bytes, c: Bytes, d: Bytes)
    ensures head + [NEWLINE] + ((a + b + [NEWLINE]) + (c + d + [NEWLINE]))
         == head + ([NEWLINE] + a) + b + ([NEWLINE] + c) + d + [NEWLINE]
  {
  }
}
