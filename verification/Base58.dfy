/** Base58 with the Bitcoin alphabet, and the DIDs that rest on it. */
module Base58 {
  import opened Seqs
  import opened Radix

  /** Digits and letters without 0, O, I and l. */
  const ALPHABET := "123456789" + "ABCDEFGH" + "JKLMN" + "PQRSTUVWXYZ" + "abcdefghijk" + "mnopqrstuvwxyz"

  datatype Decoded = Bytes(data: seq<Byte>) | InvalidCharacter(c: char)

  predicate IsLetter(c: char) { c in ALPHABET }

  /** Position in the alphabet, -1 for other characters. */
  function IndexOf(c: char): (i: int)
    ensures -1 <= i < 58
    ensures i == -1 <==> !IsLetter(c)
  {
    Search(c, 0)
  }

  function Search(c: char, from: nat): (i: int)
    requires from <= 58
    ensures i == -1 || from <= i < 58
    ensures i >= 0 ==> ALPHABET[i] == c
    ensures i == -1 ==> c !in ALPHABET[from..]
    decreases 58 - from
  {
    assert |ALPHABET| == 58;
    if from == 58 then -1
    else if ALPHABET[from] == c then from
    else
      var i := Search(c, from + 1);
      assert ALPHABET[from..] == [ALPHABET[from]] + ALPHABET[from + 1..];
      i
  }

  /** Code of the character for digit `i`. */
  function CodeOf(i: nat): int {
    if i < 9 then '1' as int + i
    else if i < 17 then 'A' as int + (i - 9)
    else if i < 22 then 'J' as int + (i - 17)
    else if i < 33 then 'P' as int + (i - 22)
    else if i < 44 then 'a' as int + (i - 33)
    else 'm' as int + (i - 44)
  }

  lemma AlphabetCodes(i: nat)
    requires i < 58
    ensures ALPHABET[i] as int == CodeOf(i)
  {
    assert forall k :: 0 <= k < 9 ==> "123456789"[k] as int == '1' as int + k;
    assert forall k :: 0 <= k < 8 ==> "ABCDEFGH"[k] as int == 'A' as int + k;
    assert forall k :: 0 <= k < 5 ==> "JKLMN"[k] as int == 'J' as int + k;
    assert forall k :: 0 <= k < 11 ==> "PQRSTUVWXYZ"[k] as int == 'P' as int + k;
    assert forall k :: 0 <= k < 11 ==> "abcdefghijk"[k] as int == 'a' as int + k;
    assert forall k :: 0 <= k < 14 ==> "mnopqrstuvwxyz"[k] as int == 'm' as int + k;
  }

  /** Digits and letters. */
  predicate IsAlphanumeric(c: char) { '0' <= c <= '9' || 'A' <= c <= 'Z' || 'a' <= c <= 'z' }

  /** Where a character stands among the letters, if it is one. */
  lemma PlaceOf(c: char)
    requires IsAlphanumeric(c) && c != '0' && c != 'O' && c != 'I' && c != 'l'
    ensures exists i :: 0 <= i < 58 && CodeOf(i) == c as int
  {
    var n := c as int;
    var i := if c <= '9' then n - '1' as int
             else if c < 'I' then 9 + n - 'A' as int
             else if c < 'O' then 17 + n - 'J' as int
             else if c <= 'Z' then 22 + n - 'P' as int
             else if c < 'l' then 33 + n - 'a' as int
             else 44 + n - 'm' as int;
    assert 0 <= i < 58 && CodeOf(i) == n;
  }

  /** The letters are the digits and letters but 0, O, I and l, in the order of their codes. */
  lemma AlphabetIsBitcoins()
    ensures |ALPHABET| == 58
    ensures forall i, j :: 0 <= i < j < 58 ==> ALPHABET[i] < ALPHABET[j]
    ensures forall c :: IsLetter(c) <==> IsAlphanumeric(c) && c != '0' && c != 'O' && c != 'I' && c != 'l'
  {
    forall i, j | 0 <= i < j < 58
      ensures ALPHABET[i] < ALPHABET[j]
    {
      AlphabetCodes(i);
      AlphabetCodes(j);
    }
    forall c
      ensures IsLetter(c) <==> IsAlphanumeric(c) && c != '0' && c != 'O' && c != 'I' && c != 'l'
    {
      if IsLetter(c) {
        var i :| 0 <= i < |ALPHABET| && ALPHABET[i] == c;
        AlphabetCodes(i);
      }
      if IsAlphanumeric(c) && c != '0' && c != 'O' && c != 'I' && c != 'l' {
        PlaceOf(c);
        var i :| 0 <= i < 58 && CodeOf(i) == c as int;
        AlphabetCodes(i);
        assert ALPHABET[i] == c;
      }
    }
  }

  lemma AlphabetIsDistinct(i: nat, j: nat)
    requires i < j < 58
    ensures ALPHABET[i] != ALPHABET[j]
  {
    AlphabetCodes(i);
    AlphabetCodes(j);
  }

  lemma IndexOfChar(i: nat)
    requires i < 58
    ensures IndexOf(ALPHABET[i]) == i
  {
    var k := IndexOf(ALPHABET[i]);
    assert ALPHABET[i] in ALPHABET;
    if k < i {
      AlphabetIsDistinct(k, i);
    } else if i < k {
      AlphabetIsDistinct(i, k);
    }
  }

  // ---- encoding on values -----------------------------------------------------------------

  function ToNats(data: seq<Byte>): (ds: seq<nat>)
    ensures |ds| == |data| && forall i :: 0 <= i < |data| ==> ds[i] == data[i]
    ensures DigitsIn(ds, 256)
  {
    seq(|data|, i requires 0 <= i < |data| => data[i] as nat)
  }

  function ToBytes(ds: seq<nat>): (data: seq<Byte>)
    requires DigitsIn(ds, 256)
    ensures |data| == |ds| && forall i :: 0 <= i < |ds| ==> data[i] == ds[i]
  {
    seq(|ds|, i requires 0 <= i < |ds| => ds[i] as Byte)
  }

  function Letters(ds: seq<nat>): (s: string)
    requires DigitsIn(ds, 58)
    ensures |s| == |ds| && forall i :: 0 <= i < |ds| ==> s[i] == ALPHABET[ds[i]]
  {
    seq(|ds|, i requires 0 <= i < |ds| => ALPHABET[ds[i]])
  }

  predicate InAlphabet(s: string) {
    forall i :: 0 <= i < |s| ==> IsLetter(s[i])
  }

  function Indices(s: string): (ds: seq<nat>)
    requires InAlphabet(s)
    ensures |ds| == |s| && forall i :: 0 <= i < |s| ==> ds[i] == IndexOf(s[i])
    ensures DigitsIn(ds, 58)
  {
    seq(|s|, i requires 0 <= i < |s| => IndexOf(s[i]) as nat)
  }

  lemma RebaseDigits(ds: seq<nat>, base: nat, base': nat)
    requires base' >= 2
    ensures DigitsIn(Rebase(ds, base, base'), base')
  {
  }

  function Encode(data: seq<Byte>): string {
    RebaseDigits(ToNats(data), 256, 58);
    Letters(Rebase(ToNats(data), 256, 58))
  }

  /** The first character outside the alphabet. */
  function FirstInvalid(s: string): (c: char)
    requires !InAlphabet(s)
    decreases |s|
  {
    var front := s[..|s| - 1];
    if InAlphabet(front) then s[|s| - 1] else FirstInvalid(front)
  }

  function Decode(s: string): Decoded {
    if InAlphabet(s) then
      RebaseDigits(Indices(s), 58, 256);
      Bytes(ToBytes(Rebase(Indices(s), 58, 256)))
    else InvalidCharacter(FirstInvalid(s))
  }

  // ---- the bijection -----------------------------------------------------------------------

  lemma LettersRoundTrip(ds: seq<nat>)
    requires DigitsIn(ds, 58)
    ensures InAlphabet(Letters(ds)) && Indices(Letters(ds)) == ds
  {
    forall i | 0 <= i < |ds|
      ensures IsLetter(Letters(ds)[i]) && IndexOf(Letters(ds)[i]) == ds[i]
    {
      IndexOfChar(ds[i]);
    }
  }

  lemma IndicesRoundTrip(s: string)
    requires InAlphabet(s)
    ensures Letters(Indices(s)) == s
  {
  }

  /** Every byte string is recovered from its encoding. */
  lemma DecodeEncode(data: seq<Byte>)
    ensures Decode(Encode(data)) == Bytes(data)
  {
    var ds := ToNats(data);
    RebaseDigits(ds, 256, 58);
    LettersRoundTrip(Rebase(ds, 256, 58));
    RebaseRoundTrip(ds, 256, 58);
    assert ToBytes(ds) == data;
  }

  /** The encoding writes the number of the bytes, with a '1' for every leading zero byte and no more. */
  lemma EncodeWritesTheNumber(data: seq<Byte>)
    ensures InAlphabet(Encode(data))
    ensures Value(Indices(Encode(data)), 58) == Value(ToNats(data), 256)
    ensures LeadingZeros(Indices(Encode(data))) == LeadingZeros(ToNats(data))
  {
    var ds := ToNats(data);
    RebaseDigits(ds, 256, 58);
    RebaseKeeps(ds, 256, 58);
    LettersRoundTrip(Rebase(ds, 256, 58));
  }

  /** Every string over the alphabet is the encoding of what it decodes to. */
  lemma EncodeDecode(s: string)
    ensures Decode(s).Bytes? <==> InAlphabet(s)
    ensures Decode(s).Bytes? ==> Encode(Decode(s).data) == s
  {
    if InAlphabet(s) {
      var ds := Indices(s);
      RebaseDigits(ds, 58, 256);
      var r := Rebase(ds, 58, 256);
      assert ToNats(ToBytes(r)) == r;
      RebaseRoundTrip(ds, 58, 256);
      IndicesRoundTrip(s);
    }
  }

  /** A text that is refused is refused for its first character that is no letter. */
  lemma {:induction false} RefusedForTheFirst(s: string) returns (i: nat)
    requires !InAlphabet(s)
    ensures i < |s| && InAlphabet(s[..i]) && !IsLetter(s[i]) && Decode(s) == InvalidCharacter(s[i])
    decreases |s|
  {
    var front := s[..|s| - 1];
    if InAlphabet(front) {
      i := |s| - 1;
      assert s[..i] == front;
    } else {
      i := RefusedForTheFirst(front);
      assert front[..i] == s[..i];
    }
  }

  lemma EncodeIsInjective(a: seq<Byte>, b: seq<Byte>)
    requires Encode(a) == Encode(b)
    ensures a == b
  {
    DecodeEncode(a);
    DecodeEncode(b);
  }

  /** One byte takes at least one character and at most eleven eighths of one, rounded up. */
  lemma EncodedLength(data: seq<Byte>)
    ensures |data| <= |Encode(data)| <= (11 * |data| + 7) / 8
  {
    var ds := ToNats(data);
    var z := LeadingZeros(ds);
    var rest := ds[z..];
    assert ds == Zeros(z) + rest;
    ValueDropsZeros(Zeros(z), rest, 256);
    if rest != [] {
      DigitCount(rest);
    }
    hide Digits, Value, Letters;
    assert Encode(data) == Letters(Zeros(z) + Digits(Value(rest, 256), 58));
  }

  // ---- the loops ---------------------------------------------------------------------------

  method CountZeroBytes(data: array<Byte>) returns (zeros: nat)
    ensures zeros == LeadingZeros(ToNats(data[..]))
  {
    zeros := 0;
    while zeros < data.Length && data[zeros] == 0
      invariant 0 <= zeros <= data.Length
      invariant forall i :: 0 <= i < zeros ==> ToNats(data[..])[i] == 0
    {
      zeros := zeros + 1;
    }
    LeadingZerosAre(ToNats(data[..]), zeros);
  }

  method BytesToNumber(data: array<Byte>) returns (num: nat)
    ensures num == Value(ToNats(data[..]), 256)
  {
    ghost var ds := ToNats(data[..]);
    num := 0;
    var i := 0;
    while i < data.Length
      invariant 0 <= i <= data.Length
      invariant num == Value(ds[..i], 256)
    {
      num := num * 256 + data[i];
      assert ds[..i + 1][..i] == ds[..i];
      i := i + 1;
    }
    assert ds[..i] == ds;
  }

  lemma DigitsOfZero()
    ensures Digits(0, 58) == [] && Letters([]) == ""
  {
  }

  lemma NextLetter(num: nat, digits: seq<nat>)
    requires num > 0 && DigitsIn(digits, 58)
    ensures num / 58 < num
    ensures Digits(num, 58) + digits == Digits(num / 58, 58) + ([num % 58] + digits)
    ensures DigitsIn([num % 58] + digits, 58)
    ensures Letters([num % 58] + digits) == [ALPHABET[num % 58]] + Letters(digits)
  {
    hide Digits, Letters, DigitsIn;
    DivShrinks(num, 58);
    MoreLetters(num % 58, digits);
    DigitsNext(num, digits);
  }

  lemma MoreLetters(d: nat, ds: seq<nat>)
    requires d < 58 && DigitsIn(ds, 58)
    ensures DigitsIn([d] + ds, 58)
    ensures Letters([d] + ds) == [ALPHABET[d]] + Letters(ds)
  {
  }

  lemma DigitsNext(num: nat, digits: seq<nat>)
    requires num > 0
    ensures Digits(num, 58) + digits == Digits(num / 58, 58) + ([num % 58] + digits)
  {
    var high, low := Digits(num / 58, 58), num % 58;
    assert Digits(num, 58) == high + [low];
    Reassociate(high, low, digits);
  }

  lemma Reassociate(a: seq<nat>, d: nat, b: seq<nat>)
    ensures (a + [d]) + b == a + ([d] + b)
  {
  }

  method NumberToLetters(number: nat) returns (result: string)
    ensures result == Letters(Digits(number, 58))
  {
    hide Digits, Letters;
    var num := number;
    result := "";
    DigitsOfZero();
    ghost var digits: seq<nat> := [];
    while num > 0
      invariant DigitsIn(digits, 58) && result == Letters(digits)
      invariant Digits(number, 58) == Digits(num, 58) + digits
      decreases num
    {
      var remainder := num % 58;
      NextLetter(num, digits);
      digits := [remainder] + digits;
      num := num / 58;
      result := [ALPHABET[remainder]] + result;
    }
  }

  method EncodeBase58(data: array<Byte>) returns (s: string)
    ensures s == Encode(data[..])
  {
    if data.Length == 0 {
      return "";
    }
    var zeros := CountZeroBytes(data);
    var num := BytesToNumber(data);
    var result := NumberToLetters(num);
    s := seq(zeros, _ => '1') + result;
    assert ALPHABET[0] == '1';
    assert s == Letters(Zeros(zeros) + Digits(num, 58));
  }

  method CountOnes(s: string) returns (zeros: nat)
    ensures InAlphabet(s) ==> zeros == LeadingZeros(Indices(s))
  {
    zeros := 0;
    while zeros < |s| && s[zeros] == '1'
      invariant 0 <= zeros <= |s|
      invariant forall i :: 0 <= i < zeros ==> s[i] == '1'
    {
      zeros := zeros + 1;
    }
    if InAlphabet(s) {
      assert ALPHABET[0] == '1';
      IndexOfChar(0);
      LeadingZerosAre(Indices(s), zeros);
    }
  }

  lemma ValueNext(s: string, i: nat)
    requires i < |s| && InAlphabet(s[..i]) && IsLetter(s[i])
    ensures InAlphabet(s[..i + 1])
    ensures Value(Indices(s[..i + 1]), 58) == Value(Indices(s[..i]), 58) * 58 + IndexOf(s[i])
  {
    hide IndexOf, IsLetter;
    assert s[..i + 1] == s[..i] + [s[i]];
    assert Indices(s[..i + 1]) == Indices(s[..i]) + [IndexOf(s[i]) as nat];
    ValueSnoc(Indices(s[..i]), IndexOf(s[i]), 58);
  }

  /** The number that the letters write, or the first character that is no letter. */
  method LettersToNumber(s: string) returns (num: nat, invalid: Option<char>)
    ensures invalid.None? <==> InAlphabet(s)
    ensures InAlphabet(s) ==> num == Value(Indices(s), 58)
    ensures !InAlphabet(s) ==> invalid == Some(FirstInvalid(s))
  {
    num, invalid := 0, None;
    assert InAlphabet(s[..0]) && Indices(s[..0]) == [] && Value([], 58) == 0;
    hide IndexOf, IsLetter, FirstInvalid, Value, InAlphabet, Indices;
    var i := 0;
    while i < |s|
      invariant 0 <= i <= |s|
      invariant InAlphabet(s[..i]) && num == Value(Indices(s[..i]), 58)
    {
      var charIndex := IndexOf(s[i]);
      if charIndex == -1 {
        FirstInvalidIs(s, i);
        return num, Some(s[i]);
      }
      ValueNext(s, i);
      num := num * 58 + charIndex;
      i := i + 1;
    }
    assert s[..i] == s;
  }

  method NumberToBytes(number: nat) returns (bytes: seq<Byte>)
    ensures ToNats(bytes) == Digits(number, 256)
  {
    var num := number;
    bytes := [];
    while num > 0
      invariant Digits(number, 256) == Digits(num, 256) + ToNats(bytes)
      decreases num
    {
      DivShrinks(num, 256);
      var low: Byte := num % 256;
      assert ToNats([low] + bytes) == [num % 256] + ToNats(bytes);
      bytes := [low] + bytes;
      num := num / 256;
    }
  }

  method ZeroPadded(zeros: nat, bytes: seq<Byte>) returns (result: array<Byte>)
    ensures ToNats(result[..]) == Zeros(zeros) + ToNats(bytes)
  {
    result := new Byte[zeros + |bytes|](_ => 0);
    forall k | 0 <= k < |bytes| {
      result[zeros + k] := bytes[k];
    }
  }

  lemma DecodeIs(s: string, data: seq<Byte>)
    requires InAlphabet(s) && ToNats(data) == Rebase(Indices(s), 58, 256)
    ensures Decode(s) == Bytes(data)
  {
    RebaseDigits(Indices(s), 58, 256);
    assert ToBytes(ToNats(data)) == data;
  }

  method DecodeBase58(s: string) returns (r: Decoded)
    ensures r == Decode(s)
  {
    if |s| == 0 {
      DecodeIs(s, []);
      return Bytes([]);
    }
    var zeros := CountOnes(s);
    var num, invalid := LettersToNumber(s);
    if invalid.Some? {
      return InvalidCharacter(invalid.value);
    }
    var bytes := NumberToBytes(num);
    var result := ZeroPadded(zeros, bytes);
    DecodeIs(s, result[..]);
    r := Bytes(result[..]);
  }

  lemma {:induction false} FirstInvalidIs(s: string, i: nat)
    requires i < |s| && !IsLetter(s[i]) && InAlphabet(s[..i])
    ensures !InAlphabet(s) && FirstInvalid(s) == s[i]
    decreases |s|
  {
    hide IsLetter;
    var front := s[..|s| - 1];
    if i < |s| - 1 {
      assert front[..i] == s[..i];
      FirstInvalidIs(front, i);
    }
  }

  // ---- DIDs --------------------------------------------------------------------------------

  const DID_PREFIX := "did:maip:"
  const PUBLIC_KEY_LENGTH := 32

  datatype KeyResult = Key(data: seq<Byte>) | NotADid | BadKey(c: char)

  function PublicKeyToDid(key: seq<Byte>): string {
    DID_PREFIX + Encode(key)
  }

  function DidToPublicKey(did: string): KeyResult {
    if !(DID_PREFIX <= did) then NotADid
    else
      match Decode(did[|DID_PREFIX|..])
      case Bytes(data) => Key(data)
      case InvalidCharacter(c) => BadKey(c)
  }

  predicate IsValidDid(did: string) {
    && DID_PREFIX <= did
    && var key := DidToPublicKey(did);
       key.Key? && |key.data| == PUBLIC_KEY_LENGTH
  }

  lemma DidRoundTrip(key: seq<Byte>)
    ensures PublicKeyToDid(key) == "did:maip:" + Encode(key)
    ensures DidToPublicKey(PublicKeyToDid(key)) == Key(key)
  {
    assert PublicKeyToDid(key)[|DID_PREFIX|..] == Encode(key);
    DecodeEncode(key);
  }

  /** The valid DIDs are exactly those of 32-byte keys. */
  lemma ValidDidsAreKeys(did: string)
    ensures DidToPublicKey(did) == NotADid <==> !("did:maip:" <= did)
    ensures IsValidDid(did) <==> exists key: seq<Byte> :: |key| == 32 && did == "did:maip:" + Encode(key)
  {
    if IsValidDid(did) {
      var rest := did[|DID_PREFIX|..];
      var key := DidToPublicKey(did).data;
      EncodeDecode(rest);
      assert did == DID_PREFIX + rest == PublicKeyToDid(key);
    }
    forall key: seq<Byte> | |key| == 32 && did == "did:maip:" + Encode(key)
      ensures IsValidDid(did)
    {
      DidRoundTrip(key);
    }
  }

  /** Distinct keys have distinct DIDs, of 41 to 53 characters. */
  lemma DidsIdentifyKeys(a: seq<Byte>, b: seq<Byte>)
    requires |a| == PUBLIC_KEY_LENGTH
    ensures PublicKeyToDid(a) == PublicKeyToDid(b) ==> a == b
    ensures 32 <= |Encode(a)| <= 44 && 41 <= |PublicKeyToDid(a)| <= 53
  {
    DidRoundTrip(a);
    DidRoundTrip(b);
    EncodedLength(a);
  }
}
