/**
 * The signed consent proof: printer and parser
 * (packages/billing/src/advertising-consent.ts:30-66).
 *
 * The keyed signature is a function the model knows nothing about but the shape of its
 * output. Times are whole seconds.
 */
module Proof {
  import opened Common

  const MAX_AGE: nat := 90 * 24 * 60 * 60
  const SLACK: nat := 60
  const MAX_LENGTH: nat := 200

  /** The largest integer the original calls safe. */
  const MAX_SAFE: int := 9007199254740991

  datatype ConsentProof = ConsentProof(id: string, nonce: string, expires: int)

  /** 43 characters of base64url, so no dot. */
  ghost predicate IsSignature(sign: string -> string) {
    forall v :: |sign(v)| == 43 && NoDot(sign(v))
  }

  predicate NoDot(s: string) {
    forall i :: 0 <= i < |s| ==> s[i] != '.'
  }

  predicate IsHex(c: char) {
    '0' <= c <= '9' || 'a' <= c <= 'f'
  }

  /** A version 4 UUID in lower case. */
  predicate IsUuid(s: string) {
    && |s| == 36
    && (forall i :: 0 <= i < 36 ==> if i == 8 || i == 13 || i == 18 || i == 23 then s[i] == '-' else IsHex(s[i]))
    && s[14] == '4' && s[19] in "89ab"
  }

  /** Hexadecimal digits in lower case. */
  predicate AllHex(s: string) {
    forall i :: 0 <= i < |s| ==> s[i] in "0123456789abcdef"
  }

  lemma HexIsExact(c: char)
    ensures IsHex(c) <==> c in "0123456789abcdef"
  {
    var digits := "0123456789abcdef";
    if '0' <= c <= '9' { assert c == digits[c as int - '0' as int]; }
    if 'a' <= c <= 'f' { assert c == digits[c as int - 'a' as int + 10]; }
  }

  /** Exactly the version 4 UUIDs in lower case: five groups of 8, 4, 4, 4 and 12 digits, the
      third led by the version 4 and the fourth by the variant 8, 9, a or b. */
  lemma UuidIsExact(s: string)
    ensures IsUuid(s) <==>
      && |s| == 36 && AllHex(s[..8]) && AllHex(s[9..13]) && AllHex(s[14..18]) && AllHex(s[19..23]) && AllHex(s[24..])
      && s[8] == '-' && s[13] == '-' && s[18] == '-' && s[23] == '-' && s[14] == '4' && s[19] in "89ab"
  {
    if |s| == 36 {
      assert s[..8] == s[0..8] && s[24..] == s[24..36];
      GroupIsExact(s, 0, 8);
      GroupIsExact(s, 9, 13);
      GroupIsExact(s, 14, 18);
      GroupIsExact(s, 19, 23);
      GroupIsExact(s, 24, 36);
    }
  }

  lemma GroupIsExact(s: string, from: nat, to: nat)
    requires from <= to <= |s|
    ensures AllHex(s[from..to]) <==> HexIn(s, from, to)
  {
    if HexIn(s, from, to) {
      forall i | 0 <= i < to - from ensures s[from..to][i] in "0123456789abcdef" { HexIsExact(s[from + i]); }
    }
    if AllHex(s[from..to]) {
      forall i | from <= i < to ensures IsHex(s[i]) {
        assert s[from..to][i - from] == s[i];
        HexIsExact(s[i]);
      }
    }
  }

  predicate HexIn(s: string, from: nat, to: nat)
    requires from <= to <= |s|
  {
    forall i :: from <= i < to ==> IsHex(s[i])
  }

  // ---- Decimal numbers ----------------------------------------------------

  predicate IsDigits(s: string) {
    forall i :: 0 <= i < |s| ==> '0' <= s[i] <= '9'
  }

  function Digit(n: nat): char
    requires n < 10
  {
    ('0' as int + n) as char
  }

  function Value(c: char): int {
    c as int - '0' as int
  }

  function PrintNat(n: nat): string {
    if n < 10 then [Digit(n)] else PrintNat(n / 10) + [Digit(n % 10)]
  }

  function Print(n: int): string {
    if n < 0 then "-" + PrintNat(-n) else PrintNat(n)
  }

  function Parse(s: string): int {
    if s == [] then 0 else 10 * Parse(s[..|s| - 1]) + Value(s[|s| - 1])
  }

  function Power10(k: nat): nat {
    if k == 0 then 1 else 10 * Power10(k - 1)
  }

  lemma {:induction false} ParseOfPrint(n: nat)
    ensures IsDigits(PrintNat(n)) && PrintNat(n) != [] && Parse(PrintNat(n)) == n
    ensures n > 0 ==> PrintNat(n)[0] != '0'
  {
    if n >= 10 {
      ParseOfPrint(n / 10);
      assert PrintNat(n)[..|PrintNat(n)| - 1] == PrintNat(n / 10);
    } else {
      assert PrintNat(n)[..0] == [];
    }
  }

  /** A number is printed as digits that read back as it, without a leading zero, and a
      negative one as a minus sign and its opposite. */
  lemma PrintsExactly(n: int)
    ensures n < 0 ==> Print(n) == "-" + Print(-n)
    ensures n >= 0 ==> IsDigits(Print(n)) && Parse(Print(n)) == n && (Print(n) == "0" || Print(n)[0] in "123456789")
  {
    if n >= 0 { ParseOfPrint(n); }
    if n > 0 {
      assert Print(n)[0] == "123456789"[Value(Print(n)[0]) - 1];
    }
  }

  lemma {:induction false} PrintOfParse(s: string)
    requires IsDigits(s) && s != [] && s[0] != '0'
    ensures Parse(s) > 0 && PrintNat(Parse(s)) == s
  {
    var init := s[..|s| - 1];
    if init == [] {
      assert s == [s[0]] && Parse(init) == 0;
    } else {
      assert init[0] == s[0];
      PrintOfParse(init);
      assert s == init + [s[|s| - 1]];
    }
  }

  lemma {:induction false} ParseIsBounded(s: string)
    requires IsDigits(s)
    ensures 0 <= Parse(s) < Power10(|s|)
    ensures s != [] && s[0] == '0' ==> Parse(s) < Power10(|s| - 1)
    ensures s != [] && s[0] != '0' ==> Parse(s) >= Power10(|s| - 1)
  {
    if s != [] {
      var init := s[..|s| - 1];
      ParseIsBounded(init);
      if init != [] { assert init[0] == s[0]; }
    }
  }

  /** A printed number has ten digits exactly between 10^9 and 10^10. */
  lemma TenDigits(n: int)
    ensures IsTen(Print(n)) <==> 1_000_000_000 <= n < 10_000_000_000
  {
    TenPowers();
    if n >= 0 {
      ParseOfPrint(n);
      ParseIsBounded(PrintNat(n));
      var k := |PrintNat(n)|;
      if n > 0 && k > 10 { PowerGrows(10, k - 1); }
      if n > 0 && k < 10 { PowerGrows(k, 9); }
    } else {
      assert Print(n)[0] == '-';
    }
  }

  predicate IsTen(s: string) {
    |s| == 10 && IsDigits(s)
  }

  lemma TenPowers()
    ensures Power10(9) == 1_000_000_000 && Power10(10) == 10_000_000_000
  {
    assert Power10(5) == 10 * Power10(4) == 100 * Power10(3) == 1000 * Power10(2) == 10_000 * Power10(1) == 100_000;
    assert Power10(9) == 10 * Power10(8) == 100 * Power10(7) == 1000 * Power10(6) == 10_000 * Power10(5);
  }

  lemma {:induction false} PowerGrows(a: nat, b: nat)
    requires a <= b
    ensures Power10(a) <= Power10(b)
    decreases b
  {
    if a < b { PowerGrows(a, b - 1); }
  }

  // ---- Fields -------------------------------------------------------------

  /** The text split at its dots. */
  function Split(s: string): (fields: seq<string>)
    ensures fields != []
  {
    if s == [] then [[]]
    else
      var rest := Split(s[1..]);
      if s[0] == '.' then [[]] + rest else [[s[0]] + rest[0]] + rest[1..]
  }

  function Join(fields: seq<string>): string {
    if fields == [] then "" else if |fields| == 1 then fields[0] else fields[0] + "." + Join(fields[1..])
  }

  lemma {:induction false} JoinOfSplit(s: string)
    ensures Join(Split(s)) == s && forall i :: 0 <= i < |Split(s)| ==> NoDot(Split(s)[i])
  {
    if s != [] {
      JoinOfSplit(s[1..]);
      var rest := Split(s[1..]);
      if s[0] == '.' {
        assert ([[]] + rest)[1..] == rest;
        assert "." + s[1..] == s;
      } else {
        var fields := [[s[0]] + rest[0]] + rest[1..];
        assert fields[1..] == rest[1..];
        assert Join(fields) == [s[0]] + Join(rest);
      }
    }
  }

  lemma {:induction false} SplitOfJoin(fields: seq<string>)
    requires fields != [] && forall i :: 0 <= i < |fields| ==> NoDot(fields[i])
    ensures Split(Join(fields)) == fields
    decreases |fields|, if fields != [] then |fields[0]| else 0
  {
    var s := Join(fields);
    if fields[0] != [] {
      var shorter := [fields[0][1..]] + fields[1..];
      assert shorter[1..] == fields[1..];
      SplitOfJoin(shorter);
      assert s == [fields[0][0]] + Join(shorter);
      assert s[1..] == Join(shorter);
      assert [fields[0][0]] + fields[0][1..] == fields[0];
      assert fields == [fields[0]] + fields[1..];
    } else if |fields| == 1 {
      assert fields == [[]];
    } else {
      SplitOfJoin(fields[1..]);
      assert s[1..] == Join(fields[1..]);
      assert fields == [[]] + fields[1..];
    }
  }

  // ---- The proof ----------------------------------------------------------

  function Signed(p: ConsentProof): string {
    p.id + "." + p.nonce + "." + Print(p.expires)
  }

  /** Nothing for what the original refuses to sign. */
  function Encode(p: ConsentProof, secret: bool, sign: string -> string): Option<string> {
    if !secret || !IsUuid(p.id) || !IsUuid(p.nonce) || !(-MAX_SAFE <= p.expires <= MAX_SAFE) then None
    else Some(Signed(p) + "." + sign(Signed(p)))
  }

  function Decode(value: string, secret: bool, sign: string -> string, now: int): Option<ConsentProof> {
    if !secret || value == "" || |value| > MAX_LENGTH then None
    else
      var fields := Split(value);
      if |fields| != 4 || !IsUuid(fields[0]) || !IsUuid(fields[1]) || !IsTen(fields[2]) then None
      else
        var expires := Parse(fields[2]);
        if expires <= now || expires > now + MAX_AGE + SLACK then None
        else if fields[3] != sign(Join(fields[..3])) then None
        else Some(ConsentProof(fields[0], fields[1], expires))
  }

  lemma UuidHasNoDot(s: string)
    requires IsUuid(s)
    ensures NoDot(s)
  {
    forall i | 0 <= i < |s| ensures s[i] != '.' { assert IsHex(s[i]) || s[i] == '-'; }
  }

  lemma DigitsHaveNoDot(n: int)
    ensures NoDot(Print(n))
  {
    if n >= 0 { ParseOfPrint(n); } else { ParseOfPrint(-n); }
  }

  lemma JoinFour(a: string, b: string, c: string, d: string)
    ensures Join([a, b, c, d]) == a + "." + b + "." + c + "." + d
    ensures Join([a, b, c, d][..3]) == a + "." + b + "." + c
  {
    assert [a, b, c, d] == [a] + ([b] + ([c] + [d])) && [a, b, c, d][..3] == [a] + ([b] + [c]);
    JoinCons(c, [d]);
    JoinCons(b, [c] + [d]);
    JoinCons(a, [b] + ([c] + [d]));
    JoinCons(b, [c]);
    JoinCons(a, [b] + [c]);
    JoinTail(a, b, c, d);
  }

  lemma JoinCons(f: string, rest: seq<string>)
    requires rest != []
    ensures Join([f] + rest) == f + "." + Join(rest)
  {
    assert ([f] + rest)[1..] == rest;
  }

  lemma JoinTail(a: string, b: string, c: string, d: string)
    ensures a + "." + (b + "." + (c + "." + d)) == a + "." + b + "." + c + "." + d
    ensures a + "." + (b + "." + c) == a + "." + b + "." + c
  {}

  /** How an encoded proof splits. */
  lemma EncodedFields(p: ConsentProof, sign: string -> string)
    requires IsSignature(sign) && IsUuid(p.id) && IsUuid(p.nonce)
    ensures var fields := [p.id, p.nonce, Print(p.expires), sign(Signed(p))];
      Split(Signed(p) + "." + sign(Signed(p))) == fields && Join(fields[..3]) == Signed(p)
  {
    UuidHasNoDot(p.id);
    UuidHasNoDot(p.nonce);
    DigitsHaveNoDot(p.expires);
    var fields := [p.id, p.nonce, Print(p.expires), sign(Signed(p))];
    JoinFour(p.id, p.nonce, Print(p.expires), sign(Signed(p)));
    assert NoDot(sign(Signed(p)));
    SplitOfJoin(fields);
  }

  /** What is signed: everything with a secret, two UUIDs and an integer the original calls
      safe. */
  lemma EncodesExactly(p: ConsentProof, secret: bool, sign: string -> string)
    ensures var text := p.id + "." + p.nonce + "." + Print(p.expires);
      Encode(p, secret, sign) ==
        if secret && IsUuid(p.id) && IsUuid(p.nonce) && -9_007_199_254_740_991 <= p.expires <= 9_007_199_254_740_991
        then Some(text + "." + sign(text)) else None
  {}

  /** The string an issuer of `id`, `nonce` and the digits `ten` hands out. */
  function Issued(id: string, nonce: string, ten: string, sign: string -> string): string {
    var text := id + "." + nonce + "." + ten;
    text + "." + sign(text)
  }

  /** Exactly which strings are accepted, and as what: the signed ones of at most 200
      characters whose ten digits lie ahead by no more than 90 days and a minute. */
  lemma AcceptsExactly(value: string, p: ConsentProof, secret: bool, sign: string -> string, now: int)
    requires forall v :: NoDot(sign(v))
    ensures Decode(value, secret, sign, now) == Some(p) <==>
      && secret && |value| <= 200 && IsUuid(p.id) && IsUuid(p.nonce) && now < p.expires <= now + 7_776_060
      && exists ten ::
           |ten| == 10 && IsDigits(ten) && Parse(ten) == p.expires && value == Issued(p.id, p.nonce, ten, sign)
  {
    if Decode(value, secret, sign, now) == Some(p) {
      JoinOfSplit(value);
      var fields := Split(value);
      assert fields == [fields[0], fields[1], fields[2], fields[3]];
      JoinFour(fields[0], fields[1], fields[2], fields[3]);
      assert value == Issued(p.id, p.nonce, fields[2], sign);
    }
    if IsUuid(p.id) && IsUuid(p.nonce) && now < p.expires <= now + 7_776_060 {
      forall ten | IsTen(ten) && Parse(ten) == p.expires && value == Issued(p.id, p.nonce, ten, sign)
        ensures |value| <= 200 && secret ==> Decode(value, secret, sign, now) == Some(p)
      {
        IssuedIsAccepted(p, ten, sign);
      }
    }
  }

  lemma IssuedIsAccepted(p: ConsentProof, ten: string, sign: string -> string)
    requires IsUuid(p.id) && IsUuid(p.nonce) && IsTen(ten) && forall v :: NoDot(sign(v))
    ensures var text, value := p.id + "." + p.nonce + "." + ten, Issued(p.id, p.nonce, ten, sign);
      Split(value) == [p.id, p.nonce, ten, sign(text)] && Join(Split(value)[..3]) == text && value != ""
  {
    var text := p.id + "." + p.nonce + "." + ten;
    UuidHasNoDot(p.id);
    UuidHasNoDot(p.nonce);
    JoinFour(p.id, p.nonce, ten, sign(text));
    SplitOfJoin([p.id, p.nonce, ten, sign(text)]);
  }

  /** Decoding undoes encoding exactly for the proofs whose expiry has ten digits and lies
      in the accepted window. */
  lemma DecodeOfEncodeExactly(p: ConsentProof, sign: string -> string, now: int)
    requires IsSignature(sign) && Encode(p, true, sign).Some?
    ensures Decode(Encode(p, true, sign).value, true, sign, now) == Some(p) <==>
      1_000_000_000 <= p.expires < 10_000_000_000 && now < p.expires <= now + MAX_AGE + SLACK
  {
    EncodedFields(p, sign);
    TenDigits(p.expires);
    if p.expires >= 0 { ParseOfPrint(p.expires); }
  }

  /** Whatever is accepted carries the signature of its own three fields and lies in the
      window. */
  lemma AcceptedIsSigned(value: string, sign: string -> string, now: int)
    ensures var p := Decode(value, true, sign, now);
      p.Some? ==>
        && IsUuid(p.value.id) && IsUuid(p.value.nonce) && now < p.value.expires <= now + MAX_AGE + SLACK
        && exists ten :: IsTen(ten) && Parse(ten) == p.value.expires
             && var signed := p.value.id + "." + p.value.nonce + "." + ten; value == signed + "." + sign(signed)
  {
    JoinOfSplit(value);
    var fields := Split(value);
    if |fields| == 4 {
      assert fields == [fields[0], fields[1], fields[2], fields[3]];
      JoinFour(fields[0], fields[1], fields[2], fields[3]);
      if Decode(value, true, sign, now).Some? { assert IsTen(fields[2]); }
    }
  }

  /** An accepted string is what encoding its result prints exactly when the expiry is at
      least 10^9, which every accepted string satisfies from 10^9 seconds on. */
  lemma AcceptedIsCanonicalExactly(value: string, sign: string -> string, now: int)
    requires IsSignature(sign) && Decode(value, true, sign, now).Some?
    ensures var p := Decode(value, true, sign, now).value;
      && (Encode(p, true, sign) == Some(value) <==> p.expires >= 1_000_000_000)
      && (now >= 999_999_999 ==> p.expires >= 1_000_000_000)
  {
    var p, fields := Decode(value, true, sign, now).value, Split(value);
    JoinOfSplit(value);
    assert fields == [fields[0], fields[1], fields[2], fields[3]];
    JoinFour(fields[0], fields[1], fields[2], fields[3]);
    ParseIsBounded(fields[2]);
    TenPowers();
    TenDigits(p.expires);
    if fields[2][0] != '0' { PrintOfParse(fields[2]); }
    if Encode(p, true, sign) == Some(value) { EncodedFields(p, sign); }
  }

  /** Before 10^9 seconds an expiry with a leading zero is accepted, and is not what
      encoding prints. */
  lemma LeadingZeroIsAccepted(id: string, sign: string -> string)
    requires IsUuid(id) && IsSignature(sign)
    ensures var signed := id + "." + id + "." + "0000000010";
      var value := signed + "." + sign(signed);
      var p := ConsentProof(id, id, 10);
      Decode(value, true, sign, 5) == Some(p) && Encode(p, true, sign) != Some(value)
  {
    var ten := "0000000010";
    var signed := id + "." + id + "." + ten;
    var value := signed + "." + sign(signed);
    UuidHasNoDot(id);
    JoinFour(id, id, ten, sign(signed));
    assert NoDot(sign(signed));
    SplitOfJoin([id, id, ten, sign(signed)]);
    ParseTen();
    AcceptedIsCanonicalExactly(value, sign, 5);
  }

  lemma ParseTen()
    ensures Parse("0000000010") == 10
  {
    var s := "0000000010";
    ZerosParse(8);
    assert s[..9] == Zeros(8) + "1" && s[..8] == Zeros(8) by {
      assert Zeros(8) == "00000000" by { assert Zeros(4) == "0000"; }
    }
    assert s[..9][..8] == s[..8];
  }

  function Zeros(n: nat): string {
    if n == 0 then "" else Zeros(n - 1) + "0"
  }

  lemma {:induction false} ZerosParse(n: nat)
    ensures Parse(Zeros(n)) == 0 && |Zeros(n)| == n
  {
    if n > 0 {
      ZerosParse(n - 1);
      assert Zeros(n)[..n - 1] == Zeros(n - 1);
    }
  }
}
