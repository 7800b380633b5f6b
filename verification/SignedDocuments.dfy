/**
 * Self-signed documents. The signature scheme is a parameter: `sign` and `verify` work on
 * bytes, with the signature already in its text form.
 */
module SignedDocuments {
  import opened Canonical
  import opened CanonicalForms
  import opened Seqs
  import Utf8
  import Base58

  type Bytes = seq<Byte>

  datatype Scheme<!SecretKey(!new), !PublicKey(!new)> = Scheme(
    sign: (Bytes, SecretKey) -> Text,
    verify: (Bytes, Text, PublicKey) -> bool,
    publicKey: SecretKey -> PublicKey)
  {
    /** What was signed with a key verifies under its public key. */
    ghost predicate Correct(sk: SecretKey) {
      forall m: Bytes :: verify(m, sign(m, sk), publicKey(sk))
    }

    /** A signature made with the key verifies for the bytes it was made for only. */
    ghost predicate Binding(sk: SecretKey) {
      forall m: Bytes, m': Bytes :: verify(m', sign(m, sk), publicKey(sk)) ==> m' == m
    }
  }

  /** "signature". */
  const SIGNATURE: Text := [0x73, 0x69, 0x67, 0x6E, 0x61, 0x74, 0x75, 0x72, 0x65]

  /** The document without its signature member. */
  function WithoutSignature(doc: seq<Field>): seq<Field> {
    if doc == [] then []
    else if doc[0].key == SIGNATURE then WithoutSignature(doc[1..])
    else [doc[0]] + WithoutSignature(doc[1..])
  }

  /** The document with this signature: in place when it has that member already, else at the end. */
  function SetSignature(doc: seq<Field>, sig: Text): seq<Field> {
    if doc == [] then [Field(SIGNATURE, Str(sig))]
    else if doc[0].key == SIGNATURE then [Field(SIGNATURE, Str(sig))] + doc[1..]
    else [doc[0]] + SetSignature(doc[1..], sig)
  }

  function Message(doc: seq<Field>): Bytes {
    Utf8.Encode(Canonicalize(Obj(WithoutSignature(doc))))
  }

  function SignDocument<SK(!new), PK(!new)>(scheme: Scheme<SK, PK>, doc: seq<Field>, sk: SK): seq<Field> {
    SetSignature(doc, scheme.sign(Message(doc), sk))
  }

  predicate VerifyDocument<SK(!new), PK(!new)>(scheme: Scheme<SK, PK>, doc: seq<Field>, pk: PK) {
    var signature := Get(doc, SIGNATURE);
    signature.Str? && scheme.verify(Message(doc), signature.s, pk)
  }

  ghost predicate WellFormedDocument(doc: seq<Field>) {
    WellFormed(Obj(doc))
  }

  lemma {:induction false} WithoutMembers(doc: seq<Field>)
    ensures forall f :: f in WithoutSignature(doc) <==> f in doc && f.key != SIGNATURE
  {
    if doc != [] {
      WithoutMembers(doc[1..]);
    }
  }

  lemma {:induction false} SetSignatureFacts(doc: seq<Field>, sig: Text)
    ensures WithoutSignature(SetSignature(doc, sig)) == WithoutSignature(doc)
    ensures Get(SetSignature(doc, sig), SIGNATURE) == Str(sig)
    ensures forall f :: f in SetSignature(doc, sig) ==> f == Field(SIGNATURE, Str(sig)) || f in doc
    ensures forall f :: f in SetSignature(doc, sig) && f.key != SIGNATURE ==> f in doc
  {
    if doc != [] {
      SetSignatureFacts(doc[1..], sig);
    }
  }

  /** Distinct keys, said of members. */
  lemma {:induction false} SetSignatureDistinct(doc: seq<Field>, sig: Text)
    requires DistinctKeys(doc)
    ensures DistinctKeys(SetSignature(doc, sig))
  {
    if doc != [] && doc[0].key != SIGNATURE {
      SetSignatureDistinct(doc[1..], sig);
      SetSignatureFacts(doc[1..], sig);
      HeadDistinct(doc[0], doc, SetSignature(doc[1..], sig));
    } else if doc != [] {
      assert forall k :: 0 <= k < |doc[1..]| ==> doc[1..][k] == doc[k + 1];
    }
  }

  lemma {:induction false} WithoutDistinct(doc: seq<Field>)
    requires DistinctKeys(doc)
    ensures DistinctKeys(WithoutSignature(doc))
  {
    if doc != [] {
      WithoutDistinct(doc[1..]);
      WithoutMembers(doc[1..]);
      HeadDistinct(doc[0], doc, WithoutSignature(doc[1..]));
    }
  }

  /** The first member's key stays distinct before members that come from the tail. */
  lemma HeadDistinct(f: Field, doc: seq<Field>, rest: seq<Field>)
    requires DistinctKeys(doc) && doc != [] && f == doc[0] && DistinctKeys(rest)
    requires forall g :: g in rest ==> g in doc[1..] || (g.key == SIGNATURE && f.key != SIGNATURE)
    ensures DistinctKeys([f] + rest)
  {
    forall k | 0 <= k < |rest|
      ensures rest[k].key != f.key
    {
      assert rest[k] in rest;
      if rest[k] in doc[1..] {
        var m :| 0 <= m < |doc[1..]| && doc[1..][m] == rest[k];
        assert doc[m + 1] == rest[k];
      }
    }
  }

  lemma WellFormedMembers(doc: seq<Field>, other: seq<Field>)
    requires WellFormed(Obj(doc)) && DistinctKeys(other)
    requires forall f :: f in other ==> f in doc || f.value.Str?
    ensures WellFormed(Obj(other))
  {
    forall i | 0 <= i < |other|
      ensures WellFormed(other[i].value)
    {
      assert other[i] in other;
    }
  }

  lemma SignedIsWellFormed(doc: seq<Field>, sig: Text)
    requires WellFormedDocument(doc)
    ensures WellFormedDocument(SetSignature(doc, sig))
    ensures WellFormedDocument(WithoutSignature(doc))
  {
    SetSignatureDistinct(doc, sig);
    SetSignatureFacts(doc, sig);
    WellFormedMembers(doc, SetSignature(doc, sig));
    WithoutDistinct(doc);
    WithoutMembers(doc);
    WellFormedMembers(doc, WithoutSignature(doc));
  }

  // ---- sameness of a document, split into signature and rest -----------------------------

  ghost predicate SameMembersOf(a: seq<Field>, b: seq<Field>) {
    (forall f :: f in a ==> HasSame(f, b)) && (forall g :: g in b ==> IsSameAsSome(a, g))
  }

  lemma SameIsSameMembers(a: seq<Field>, b: seq<Field>)
    ensures Same(Obj(a), Obj(b)) <==> SameMembersOf(a, b)
  {
    hide HasSame, IsSameAsSome;
    assert forall i :: 0 <= i < |a| ==> a[i] in a;
    assert forall i :: 0 <= i < |b| ==> b[i] in b;
  }

  lemma HasSameWithout(f: Field, b: seq<Field>)
    requires f.key != SIGNATURE
    ensures HasSame(f, WithoutSignature(b)) <==> HasSame(f, b)
  {
    hide Same;
    var w := WithoutSignature(b);
    WithoutMembers(b);
    if HasSame(f, b) {
      var j :| 0 <= j < |b| && b[j].key == f.key && Same(f.value, b[j].value);
      assert b[j] in w;
      var i :| 0 <= i < |w| && w[i] == b[j];
    }
    if HasSame(f, w) {
      var j :| 0 <= j < |w| && w[j].key == f.key && Same(f.value, w[j].value);
      assert w[j] in b;
      var i :| 0 <= i < |b| && b[i] == w[j];
    }
  }

  lemma IsSameWithout(a: seq<Field>, g: Field)
    requires g.key != SIGNATURE
    ensures IsSameAsSome(WithoutSignature(a), g) <==> IsSameAsSome(a, g)
  {
    hide Same;
    var w := WithoutSignature(a);
    WithoutMembers(a);
    if IsSameAsSome(a, g) {
      var j :| 0 <= j < |a| && a[j].key == g.key && Same(a[j].value, g.value);
      assert a[j] in w;
      var i :| 0 <= i < |w| && w[i] == a[j];
    }
    if IsSameAsSome(w, g) {
      var j :| 0 <= j < |w| && w[j].key == g.key && Same(w[j].value, g.value);
      assert w[j] in a;
      var i :| 0 <= i < |a| && a[i] == w[j];
    }
  }

  /** A document with a string signature has it as a member, its only one of that key. */
  lemma SignatureMember(doc: seq<Field>, sig: Text)
    requires DistinctKeys(doc) && Get(doc, SIGNATURE) == Str(sig)
    ensures Field(SIGNATURE, Str(sig)) in doc
    ensures forall f :: f in doc && f.key == SIGNATURE ==> f.value == Str(sig)
  {
    forall f | f in doc && f.key == SIGNATURE
      ensures f.value == Str(sig)
    {
      var k :| 0 <= k < |doc| && doc[k] == f;
      GetField(doc, k);
    }
  }

  lemma {:induction false} SameSplits(a: seq<Field>, b: seq<Field>, sig: Text)
    requires DistinctKeys(a) && DistinctKeys(b) && Get(a, SIGNATURE) == Str(sig)
    ensures Same(Obj(a), Obj(b))
            <==> Same(Obj(WithoutSignature(a)), Obj(WithoutSignature(b))) && Get(b, SIGNATURE) == Str(sig)
  {
    hide WithoutSignature, Same;
    var wa, wb := WithoutSignature(a), WithoutSignature(b);
    WithoutMembers(a);
    WithoutMembers(b);
    SameIsSameMembers(a, b);
    SameIsSameMembers(wa, wb);
    SignatureMember(a, sig);
    if SameMembersOf(a, b) {
      SameSignature(a, b, sig);
      SameRest(a, b);
    }
    if SameMembersOf(wa, wb) && Get(b, SIGNATURE) == Str(sig) {
      SignatureMember(b, sig);
      RestSame(a, b, sig);
    }
  }

  lemma SameSignature(a: seq<Field>, b: seq<Field>, sig: Text)
    requires DistinctKeys(b) && SameMembersOf(a, b) && Field(SIGNATURE, Str(sig)) in a
    ensures Get(b, SIGNATURE) == Str(sig)
  {
    assert HasSame(Field(SIGNATURE, Str(sig)), b);
    var j :| 0 <= j < |b| && b[j].key == SIGNATURE && Same(Str(sig), b[j].value);
    GetField(b, j);
  }

  lemma {:induction false} SameRest(a: seq<Field>, b: seq<Field>)
    requires SameMembersOf(a, b)
    ensures SameMembersOf(WithoutSignature(a), WithoutSignature(b))
  {
    hide WithoutSignature, Same, HasSame, IsSameAsSome;
    WithoutMembers(a);
    WithoutMembers(b);
    forall f | f in WithoutSignature(a)
      ensures HasSame(f, WithoutSignature(b))
    {
      HasSameWithout(f, b);
    }
    forall g | g in WithoutSignature(b)
      ensures IsSameAsSome(WithoutSignature(a), g)
    {
      IsSameWithout(a, g);
    }
  }

  lemma RestSame(a: seq<Field>, b: seq<Field>, sig: Text)
    requires SameMembersOf(WithoutSignature(a), WithoutSignature(b))
    requires Field(SIGNATURE, Str(sig)) in a && Field(SIGNATURE, Str(sig)) in b
    requires forall f :: f in a && f.key == SIGNATURE ==> f.value == Str(sig)
    requires forall f :: f in b && f.key == SIGNATURE ==> f.value == Str(sig)
    ensures SameMembersOf(a, b)
  {
    WithoutMembers(a);
    WithoutMembers(b);
    forall f | f in a
      ensures HasSame(f, b)
    {
      if f.key == SIGNATURE {
        var j :| 0 <= j < |b| && b[j] == f;
        assert Same(f.value, b[j].value);
      } else {
        HasSameWithout(f, b);
      }
    }
    forall g | g in b
      ensures IsSameAsSome(a, g)
    {
      if g.key == SIGNATURE {
        var j :| 0 <= j < |a| && a[j] == g;
        assert Same(a[j].value, g.value);
      } else {
        IsSameWithout(a, g);
      }
    }
  }

  /** The code units of a text of ASCII characters. */
  function Ascii(s: string): (t: Text)
    requires forall i :: 0 <= i < |s| ==> s[i] as int < 0x80
    ensures |t| == |s| && forall i :: 0 <= i < |s| ==> t[i] == s[i] as int
  {
    seq(|s|, i requires 0 <= i < |s| => s[i] as int)
  }

  /** The constants spell what they are called. */
  lemma WordsSpellTheirNames()
    ensures NULL == Ascii("null") && TRUE == Ascii("true") && FALSE == Ascii("false")
    ensures SIGNATURE == Ascii("signature")
    ensures [OPEN_BRACKET, CLOSE_BRACKET, OPEN_BRACE, CLOSE_BRACE] == Ascii("[]{}")
    ensures [QUOTE, COMMA, COLON, MINUS, BACKSLASH, SLASH, LETTER_U] == Ascii("\",:-\\/u")
  {
  }

  // ---- the promises ------------------------------------------------------------------------

  /** Distinct documents, up to member order, sign distinct bytes. */
  lemma MessageIdentifies(a: seq<Field>, b: seq<Field>)
    requires WellFormedDocument(a) && WellFormedDocument(b)
    ensures Message(a) == Message(b) <==> Same(Obj(WithoutSignature(a)), Obj(WithoutSignature(b)))
  {
    var wa, wb := Obj(WithoutSignature(a)), Obj(WithoutSignature(b));
    SignedIsWellFormed(a, []);
    SignedIsWellFormed(b, []);
    CanonicalTextIdentifies(wa, wb);
    if Message(a) == Message(b) {
      Utf8.CanonicalWellPaired(wa);
      Utf8.CanonicalWellPaired(wb);
      Utf8.EncodeIsInjective(Canonicalize(wa), Canonicalize(wb));
    }
  }

  /** Every reordering, at any depth, of a signed document verifies. */
  lemma ReorderedDocumentVerifies<SK(!new), PK(!new)>(scheme: Scheme<SK, PK>, doc: seq<Field>, sk: SK, got: seq<Field>)
    requires scheme.Correct(sk)
    requires WellFormedDocument(doc) && WellFormedDocument(got)
    requires Same(Obj(SignDocument(scheme, doc, sk)), Obj(got))
    ensures VerifyDocument(scheme, got, scheme.publicKey(sk))
  {
    var sig := scheme.sign(Message(doc), sk);
    var signed := SignDocument(scheme, doc, sk);
    SetSignatureFacts(doc, sig);
    SignedIsWellFormed(doc, sig);
    SameSplits(signed, got, sig);
    MessageIdentifies(signed, got);
  }

  /**
   * With a signature that binds its bytes, the documents that verify under a given
   * signature are exactly the reorderings of the signed one.
   */
  lemma {:induction false} OnlyReorderingsVerify<SK(!new), PK(!new)>(
    scheme: Scheme<SK, PK>, doc: seq<Field>, sk: SK, got: seq<Field>)
    requires scheme.Correct(sk) && scheme.Binding(sk)
    requires WellFormedDocument(doc) && WellFormedDocument(got)
    requires Get(got, SIGNATURE) == Get(SignDocument(scheme, doc, sk), SIGNATURE)
    ensures VerifyDocument(scheme, got, scheme.publicKey(sk))
            <==> Same(Obj(SignDocument(scheme, doc, sk)), Obj(got))
  {
    var sig := scheme.sign(Message(doc), sk);
    var signed := SignDocument(scheme, doc, sk);
    SetSignatureFacts(doc, sig);
    SignedIsWellFormed(doc, sig);
    SameSplits(signed, got, sig);
    MessageIdentifies(signed, got);
    assert Message(signed) == Message(doc);
  }

  // ---- signatures checked against the sender's DID -----------------------------------------

  function Sign<SK(!new), PK(!new)>(scheme: Scheme<SK, PK>, payload: Json, sk: SK): Text {
    scheme.sign(Utf8.Encode(Canonicalize(payload)), sk)
  }

  /** A DID without a key in it verifies nothing. */
  predicate VerifyWithDid<SK(!new)>(scheme: Scheme<SK, seq<Byte>>, payload: Json, signature: Text, did: string) {
    match Base58.DidToPublicKey(did)
    case Key(key) => scheme.verify(Utf8.Encode(Canonicalize(payload)), signature, key)
    case _ => false
  }

  /**
   * Under the signer's DID alone, the signature of a payload verifies for its reorderings;
   * with a signature that binds its bytes, for nothing else.
   */
  lemma DidVerifiesReorderings<SK(!new)>(scheme: Scheme<SK, seq<Byte>>, payload: Json, sk: SK, got: Json)
    requires scheme.Correct(sk) && WellFormed(payload) && WellFormed(got)
    ensures var did := Base58.PublicKeyToDid(scheme.publicKey(sk));
            var ok := VerifyWithDid(scheme, got, Sign(scheme, payload, sk), did);
            (Same(payload, got) ==> ok) && (scheme.Binding(sk) ==> (ok <==> Same(payload, got)))
  {
    Base58.DidRoundTrip(scheme.publicKey(sk));
    CanonicalTextIdentifies(payload, got);
    Utf8.CanonicalWellPaired(payload);
    Utf8.CanonicalWellPaired(got);
    if Utf8.Encode(Canonicalize(payload)) == Utf8.Encode(Canonicalize(got)) {
      Utf8.EncodeIsInjective(Canonicalize(payload), Canonicalize(got));
    }
  }

  /** The members that have a value. */
  function WithoutUndefined(fields: seq<Field>): seq<Field> {
    if fields == [] then []
    else if fields[0].value == Undefined then WithoutUndefined(fields[1..])
    else [fields[0]] + WithoutUndefined(fields[1..])
  }

  lemma {:induction false} WithoutUndefinedFacts(fields: seq<Field>)
    requires DistinctKeys(fields)
    ensures DistinctKeys(WithoutUndefined(fields))
    ensures forall f :: f in WithoutUndefined(fields) <==> f in fields && f.value != Undefined
  {
    if fields != [] {
      var rest := WithoutUndefined(fields[1..]);
      assert forall k :: 0 <= k < |fields[1..]| ==> fields[1..][k] == fields[k + 1];
      WithoutUndefinedFacts(fields[1..]);
      assert fields == [fields[0]] + fields[1..];
      forall k | 0 <= k < |rest|
        ensures rest[k].key != fields[0].key
      {
        assert rest[k] in rest;
        var m :| 0 <= m < |fields[1..]| && fields[1..][m] == rest[k];
        assert fields[m + 1] == rest[k];
      }
    }
  }

  /** Leaving undefined members out keeps the text exactly when there are none. */
  lemma {:induction false} UndefinedMattersIff(fields: seq<Field>)
    requires WellFormed(Obj(fields))
    ensures Canonicalize(Obj(WithoutUndefined(fields))) == Canonicalize(Obj(fields))
            <==> forall f :: f in fields ==> f.value != Undefined
  {
    var some := WithoutUndefined(fields);
    WithoutUndefinedFacts(fields);
    WellFormedMembers(fields, some);
    hide Canonicalize, WithoutUndefined;
    CanonicalTextIdentifies(Obj(some), Obj(fields));
    SameIsSameMembers(some, fields);
    if SameMembersOf(some, fields) {
      forall f | f in fields
        ensures f.value != Undefined
      {
        assert IsSameAsSome(some, f);
        var i :| 0 <= i < |some| && some[i].key == f.key && Same(some[i].value, f.value);
        assert some[i] in some;
        OneMemberPerKey(fields, some[i], f);
      }
    }
    if forall f :: f in fields ==> f.value != Undefined {
      NothingUndefined(fields);
    }
  }

  lemma OneMemberPerKey(fields: seq<Field>, f: Field, g: Field)
    requires DistinctKeys(fields) && f in fields && g in fields && f.key == g.key
    ensures f == g
  {
  }

  lemma {:induction false} NothingUndefined(fields: seq<Field>)
    requires forall f :: f in fields ==> f.value != Undefined
    ensures WithoutUndefined(fields) == fields
  {
    if fields != [] {
      NothingUndefined(fields[1..]);
    }
  }

  /** An absent-valued member counts as null: it is not the same as leaving it out. */
  lemma UndefinedIsNotAbsent(key: Text)
    ensures Canonicalize(Obj([Field(key, Undefined)])) == Canonicalize(Obj([Field(key, Null)]))
    ensures Canonicalize(Obj([Field(key, Undefined)])) != Canonicalize(Obj([]))
  {
    var u, n := Obj([Field(key, Undefined)]), Obj([Field(key, Null)]);
    assert n.fields[0].key == u.fields[0].key && Same(u.fields[0].value, n.fields[0].value);
    assert HasSame(u.fields[0], n.fields) && IsSameAsSome(u.fields, n.fields[0]);
    CanonicalTextIdentifies(u, n);
    CanonicalTextIdentifies(u, Obj([]));
    assert !HasSame(u.fields[0], []);
  }
}
