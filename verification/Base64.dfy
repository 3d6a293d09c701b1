/** Base64 (packages/protocol/src/base64.ts): sections 4 and 5 of RFC 4648, as btoa, atob and the
    URL-safe conversions compute them. */
module Base64 {
  import opened Wrappers

  type Byte = n: nat | n < 256

  function Digit(n: nat): (c: char)
    requires n < 64
    ensures InAlphabet(c) && Value(c) == n
  {
    if n < 26 then 'A' + n as char
    else if n < 52 then 'a' + (n - 26) as char
    else if n < 62 then '0' + (n - 52) as char
    else if n == 62 then '+' else '/'
  }

  predicate InAlphabet(c: char) { 'A' <= c <= 'Z' || 'a' <= c <= 'z' || '0' <= c <= '9' || c == '+' || c == '/' }

  function Value(c: char): (n: nat)
    requires InAlphabet(c)
    ensures n < 64
  {
    if 'A' <= c <= 'Z' then (c - 'A') as nat
    else if 'a' <= c <= 'z' then (c - 'a') as nat + 26
    else if '0' <= c <= '9' then (c - '0') as nat + 52
    else if c == '+' then 62 else 63
  }

  // ------------------------------------------------------------ btoa

  /** The digits for these bytes, the last group short when bytes are missing. */
  function Digits(bytes: seq<Byte>): string {
    if |bytes| == 0 then ""
    else if |bytes| == 1 then [Digit(bytes[0] / 4), Digit(bytes[0] % 4 * 16)]
    else if |bytes| == 2 then [Digit(bytes[0] / 4), Digit(bytes[0] % 4 * 16 + bytes[1] / 16), Digit(bytes[1] % 16 * 4)]
    else Quad(bytes[0], bytes[1], bytes[2]) + Digits(bytes[3..])
  }

  function Quad(a: Byte, b: Byte, c: Byte): (q: string)
    ensures |q| == 4
  {
    [Digit(a / 4), Digit(a % 4 * 16 + b / 16), Digit(b % 16 * 4 + c / 64), Digit(c % 64)]
  }

  /** Padding signs up to a whole number of quads. */
  function Padding(n: nat): (p: string)
    ensures |p| == (4 - n % 4) % 4 && forall i :: 0 <= i < |p| ==> p[i] == '='
  {
    seq((4 - n % 4) % 4, i => '=')
  }

  function Btoa(bytes: seq<Byte>): string { Digits(bytes) + Padding(|Digits(bytes)|) }

  // ------------------------------------------------------------ atob

  predicate IsSpace(c: char) { c == ' ' || c == '\t' || c == '\n' || c == '\r' || c as int == 12 }

  /** ASCII whitespace: tab, line feed, form feed, carriage return and space. */
  lemma SpaceIff(c: char)
    ensures IsSpace(c) <==> c as int in [9, 10, 12, 13, 32]
  {
  }

  function WithoutSpace(s: string): string {
    if s == "" then "" else WithoutSpace(s[..|s| - 1]) + (if IsSpace(s[|s| - 1]) then "" else [s[|s| - 1]])
  }

  /** At most two padding signs go, and only from a text of whole quads. */
  function WithoutPadding(s: string): string {
    if |s| % 4 != 0 || s == "" || s[|s| - 1] != '=' then s
    else if s[|s| - 2] != '=' then s[..|s| - 1]
    else s[..|s| - 2]
  }

  predicate AllDigits(s: string) { forall i :: 0 <= i < |s| ==> InAlphabet(s[i]) }

  /** The whole bytes in a text of digits; leftover bits are dropped. */
  function Bytes(s: string): seq<Byte>
    requires AllDigits(s)
  {
    if |s| < 2 then []
    else
      var a, b := Value(s[0]), Value(s[1]);
      if |s| == 2 then [a * 4 + b / 16]
      else
        var c := Value(s[2]);
        if |s| == 3 then [a * 4 + b / 16, b % 16 * 16 + c / 4]
        else [a * 4 + b / 16, b % 16 * 16 + c / 4, c % 4 * 64 + Value(s[3])] + Bytes(s[4..])
  }

  function Atob(s: string): Option<seq<Byte>> {
    var t := WithoutPadding(WithoutSpace(s));
    if |t| % 4 == 1 || !AllDigits(t) then None else Some(Bytes(t))
  }

  // ------------------------------------------------------------ what the digits mean

  /** The alphabet of section 4 of RFC 4648. */
  lemma DigitIs(n: nat)
    requires n < 64
    ensures n < 26 ==> Digit(n) == "ABCDEFGHIJKLMNOPQRSTUVWXYZ"[n]
    ensures 26 <= n < 52 ==> Digit(n) == "abcdefghijklmnopqrstuvwxyz"[n - 26]
    ensures 52 <= n ==> Digit(n) == "0123456789+/"[n - 52]
  {
  }

  lemma QuadValues(a: Byte, b: Byte, c: Byte)
    ensures var q := Quad(a, b, c);
            && (forall i :: 0 <= i < 4 ==> InAlphabet(q[i]))
            && Value(q[0]) == a / 4 && Value(q[1]) == a % 4 * 16 + b / 16
            && Value(q[2]) == b % 16 * 4 + c / 64 && Value(q[3]) == c % 64
  {
  }

  /** Four digits are the number that their three bytes are, highest byte and highest digit first. */
  lemma GroupIsNumber(a: Byte, b: Byte, c: Byte)
    ensures var q := Quad(a, b, c);
            && (forall i :: 0 <= i < 4 ==> InAlphabet(q[i]))
            && 262144 * Value(q[0]) + 4096 * Value(q[1]) + 64 * Value(q[2]) + Value(q[3])
               == 65536 * (a as nat) + 256 * (b as nat) + c as nat
  {
    QuadValues(a, b, c);
    assert a as nat == a / 4 * 4 + a % 4 && b as nat == b / 16 * 16 + b % 16 && c as nat == c / 64 * 64 + c % 64;
  }

  /** A last group of two bytes or one is that number with zero bits added, and padding signs. */
  lemma ShortGroups(a: Byte, b: Byte)
    ensures var s := Btoa([a, b]);
            && |s| == 4 && s[3] == '=' && InAlphabet(s[0]) && InAlphabet(s[1]) && InAlphabet(s[2])
            && 4096 * Value(s[0]) + 64 * Value(s[1]) + Value(s[2]) == 4 * (256 * (a as nat) + b as nat)
    ensures var s := Btoa([a]);
            && |s| == 4 && s[2] == '=' && s[3] == '=' && InAlphabet(s[0]) && InAlphabet(s[1])
            && 64 * Value(s[0]) + Value(s[1]) == 16 * (a as nat)
  {
    assert a as nat == a / 4 * 4 + a % 4 && b as nat == b / 16 * 16 + b % 16;
    assert Digits([a, b]) == [Digit(a / 4), Digit(a % 4 * 16 + b / 16), Digit(b % 16 * 4)];
    assert Digits([a]) == [Digit(a / 4), Digit(a % 4 * 16)];
  }

  /** A text is that of the first three bytes and then that of the rest. */
  lemma ThreeAtATime(a: Byte, b: Byte, c: Byte, rest: seq<Byte>)
    ensures Btoa([a, b, c] + rest) == Quad(a, b, c) + Btoa(rest)
  {
    var bytes := [a, b, c] + rest;
    assert bytes[3..] == rest && bytes[0] == a && bytes[1] == b && bytes[2] == c;
    var digits := Digits(rest);
    assert Digits(bytes) == Quad(a, b, c) + digits;
    assert Padding(|digits| + 4) == Padding(|digits|);
    assert Quad(a, b, c) + digits + Padding(|digits|) == Quad(a, b, c) + (digits + Padding(|digits|));
  }

  // ------------------------------------------------------------ atob undoes btoa

  lemma {:induction false} DigitsShape(bytes: seq<Byte>)
    ensures AllDigits(Digits(bytes)) && |Digits(bytes)| % 4 != 1
  {
    if |bytes| >= 3 {
      DigitsShape(bytes[3..]);
      AppendDigits(Quad(bytes[0], bytes[1], bytes[2]), Digits(bytes[3..]));
    }
  }

  lemma AppendDigits(a: string, b: string)
    requires AllDigits(a) && AllDigits(b) && |a| == 4
    ensures AllDigits(a + b) && |a + b| % 4 == |b| % 4
  {
  }

  lemma SplitBytes(a: Byte, b: Byte, c: Byte)
    ensures a / 4 * 4 + (a % 4 * 16 + b / 16) / 16 == a
    ensures (a % 4 * 16 + b / 16) % 16 * 16 + (b % 16 * 4 + c / 64) / 4 == b
    ensures (b % 16 * 4 + c / 64) % 4 * 64 + c % 64 == c
  {
  }

  lemma QuadDecodes(a: Byte, b: Byte, c: Byte)
    ensures AllDigits(Quad(a, b, c)) && Bytes(Quad(a, b, c)) == [a, b, c]
  {
    var q := Quad(a, b, c);
    SplitBytes(a, b, c);
  }

  lemma MoreDecodes(a: Byte, b: Byte, c: Byte, digits: string, rest: seq<Byte>)
    requires AllDigits(digits) && Bytes(digits) == rest
    ensures AllDigits(Quad(a, b, c) + digits) && Bytes(Quad(a, b, c) + digits) == [a, b, c] + rest
  {
    QuadDecodes(a, b, c);
    QuadAhead(Quad(a, b, c), digits);
  }

  lemma QuadAhead(q: string, digits: string)
    requires |q| == 4 && AllDigits(q) && AllDigits(digits)
    ensures AllDigits(q + digits) && Bytes(q + digits) == Bytes(q) + Bytes(digits)
  {
    var s := q + digits;
    assert s[4..] == digits && s[0] == q[0] && s[1] == q[1] && s[2] == q[2] && s[3] == q[3];
    assert Bytes(s) == FirstBytes(q) + Bytes(digits);
    assert q[4..] == "" && Bytes(q) == FirstBytes(q) + [];
  }

  /** The three bytes in a quad of digits. */
  function FirstBytes(q: string): seq<Byte>
    requires |q| == 4 && AllDigits(q)
  {
    [Value(q[0]) * 4 + Value(q[1]) / 16, Value(q[1]) % 16 * 16 + Value(q[2]) / 4, Value(q[2]) % 4 * 64 + Value(q[3])]
  }

  lemma OneDecodes(a: Byte)
    ensures var s := [Digit(a / 4), Digit(a % 4 * 16)]; AllDigits(s) && Bytes(s) == [a]
  {
    SplitBytes(a, 0, 0);
  }

  lemma TwoDecode(a: Byte, b: Byte)
    ensures var s := [Digit(a / 4), Digit(a % 4 * 16 + b / 16), Digit(b % 16 * 4)]; AllDigits(s) && Bytes(s) == [a, b]
  {
    SplitBytes(a, b, 0);
  }

  lemma FewDecode(bytes: seq<Byte>)
    requires |bytes| < 3
    ensures AllDigits(Digits(bytes)) && Bytes(Digits(bytes)) == bytes
  {
    if |bytes| == 0 {
      assert bytes == [];
    } else if |bytes| == 1 {
      OneDecodes(bytes[0]);
    } else {
      TwoDecode(bytes[0], bytes[1]);
    }
  }

  lemma {:induction false} DigitsDecode(bytes: seq<Byte>)
    ensures AllDigits(Digits(bytes)) && Bytes(Digits(bytes)) == bytes
  {
    if |bytes| < 3 {
      FewDecode(bytes);
    } else {
      DigitsDecode(bytes[3..]);
      MoreDecodes(bytes[0], bytes[1], bytes[2], Digits(bytes[3..]), bytes[3..]);
      assert bytes == [bytes[0], bytes[1], bytes[2]] + bytes[3..];
    }
  }

  lemma {:induction false} NoSpaceToDrop(s: string)
    requires forall i :: 0 <= i < |s| ==> !IsSpace(s[i])
    ensures WithoutSpace(s) == s
  {
    if s != "" { NoSpaceToDrop(s[..|s| - 1]); }
  }

  lemma PaddingGoes(digits: string)
    requires AllDigits(digits) && |digits| % 4 != 1
    ensures WithoutPadding(digits + Padding(|digits|)) == digits
  {
    var p := Padding(|digits|);
    var s := digits + p;
    assert s[..|digits|] == digits;
    if |p| == 0 && s != "" { assert s[|s| - 1] == digits[|s| - 1]; }
  }

  /** Every byte string comes back from its base64 text. */
  lemma AtobUndoesBtoa(bytes: seq<Byte>)
    ensures Atob(Btoa(bytes)) == Some(bytes)
  {
    DigitsShape(bytes);
    DigitsDecode(bytes);
    AtobOfPadded(Digits(bytes));
  }

  lemma AtobOfPadded(digits: string)
    requires AllDigits(digits) && |digits| % 4 != 1
    ensures Atob(digits + Padding(|digits|)) == Some(Bytes(digits))
  {
    var s := digits + Padding(|digits|);
    assert WithoutSpace(s) == s by {
      forall i | 0 <= i < |s| ensures !IsSpace(s[i]) { if i < |digits| { assert s[i] == digits[i]; } }
      NoSpaceToDrop(s);
    }
    PaddingGoes(digits);
  }

  // ------------------------------------------------------------ URL-safe text

  /** Every `from` becomes `to`. */
  function Replaced(s: string, from: char, to: char): (r: string)
    ensures |r| == |s| && forall i :: 0 <= i < |s| ==> r[i] == if s[i] == from then to else s[i]
  {
    seq(|s|, i requires 0 <= i < |s| => if s[i] == from then to else s[i])
  }

  /** The length without the padding signs at the end. */
  function BodyLength(s: string): (n: nat)
    ensures n <= |s| && (forall i :: n <= i < |s| ==> s[i] == '=') && (n > 0 ==> s[n - 1] != '=')
  {
    if s != "" && s[|s| - 1] == '=' then BodyLength(s[..|s| - 1]) else |s|
  }

  function ToUrlSafe(b64: string): string {
    var s := Replaced(Replaced(b64, '+', '-'), '/', '_');
    s[..BodyLength(s)]
  }

  function FromUrlSafe(urlSafe: string): string {
    Replaced(Replaced(urlSafe, '-', '+'), '_', '/') + Padding(|urlSafe|)
  }

  predicate NoUrlSigns(s: string) { forall i :: 0 <= i < |s| ==> s[i] != '-' && s[i] != '_' }

  /** Whole quads, the last not all padding, and none of the URL-safe signs. */
  predicate Canonical(b64: string) { WholeQuads(b64) && NoUrlSigns(b64) }

  predicate WholeQuads(s: string) {
    && |s| % 4 == 0
    && (s != "" ==> !(s[|s| - 4] == '=' && s[|s| - 3] == '=' && s[|s| - 2] == '=' && s[|s| - 1] == '='))
  }

  /** One sign there and back. */
  function Mended(c: char): char { if c == '-' then '+' else if c == '_' then '/' else c }

  lemma ToUrlSafeIs(b64: string)
    ensures var n := BodyLength(b64); var u := ToUrlSafe(b64);
            |u| == n && forall i :: 0 <= i < n ==>
              u[i] == if b64[i] == '+' then '-' else if b64[i] == '/' then '_' else b64[i]
  {
  }

  /** The URL-safe form: '+' and '/' become '-' and '_', and the padding signs at the end go. */
  lemma UrlSafeSigns(b64: string)
    ensures var u := ToUrlSafe(b64);
            && |u| <= |b64| && (forall i :: |u| <= i < |b64| ==> b64[i] == '=') && (u != "" ==> u[|u| - 1] != '=')
            && forall i :: 0 <= i < |u| ==>
                 (b64[i] == '+' ==> u[i] == '-') && (b64[i] == '/' ==> u[i] == '_')
                 && (b64[i] != '+' && b64[i] != '/' ==> u[i] == b64[i])
  {
    ToUrlSafeIs(b64);
  }

  /** There and back: the body with the URL-safe signs replaced, padded afresh. */
  lemma ThereAndBack(b64: string)
    ensures var n := BodyLength(b64); var t := FromUrlSafe(ToUrlSafe(b64));
            && |t| == n + (4 - n % 4) % 4
            && (forall i :: n <= i < |t| ==> t[i] == '=')
            && forall i :: 0 <= i < n ==> t[i] == Mended(b64[i])
  {
    ToUrlSafeIs(b64);
  }

  /** Padding afresh gives the same length exactly for whole quads whose last is not all padding. */
  lemma SameLengthIff(s: string, n: nat)
    requires n <= |s| && (forall i :: n <= i < |s| ==> s[i] == '=') && (n > 0 ==> s[n - 1] != '=')
    ensures |s| == n + (4 - n % 4) % 4 <==> WholeQuads(s)
  {
  }

  /** The conversions undo each other exactly on canonical text. */
  lemma UrlSafeRoundTripIff(b64: string)
    ensures FromUrlSafe(ToUrlSafe(b64)) == b64 <==> Canonical(b64)
  {
    var n, t := BodyLength(b64), FromUrlSafe(ToUrlSafe(b64));
    ThereAndBack(b64);
    SameLengthIff(b64, n);
  }

  lemma PaddedDigits(digits: string)
    requires AllDigits(digits) && |digits| % 4 != 1
    ensures Canonical(digits + Padding(|digits|))
    ensures forall i :: 0 <= i < |digits + Padding(|digits|)| ==> (digits + Padding(|digits|))[i] != '.'
  {
    var s := digits + Padding(|digits|);
    assert forall i :: 0 <= i < |digits| ==> s[i] == digits[i] && InAlphabet(s[i]);
    assert forall i :: |digits| <= i < |s| ==> s[i] == '=';
    if s != "" { assert InAlphabet(s[|s| - 4]); }
  }

  /** Text made from bytes is canonical, so it survives the URL-safe form. */
  lemma EncodedIsCanonical(bytes: seq<Byte>)
    ensures Canonical(Btoa(bytes)) && FromUrlSafe(ToUrlSafe(Btoa(bytes))) == Btoa(bytes)
    ensures forall i :: 0 <= i < |Btoa(bytes)| ==> Btoa(bytes)[i] != '.'
  {
    DigitsShape(bytes);
    PaddedDigits(Digits(bytes));
    UrlSafeRoundTripIff(Btoa(bytes));
  }

  // ------------------------------------------------------------ the loops

  const CHUNK: nat := 0x8000

  /** toBase64: the binary string is built chunk by chunk, then encoded. */
  method ToBase64(bytes: array<Byte>) returns (b64: string)
    ensures b64 == Btoa(bytes[..])
    ensures Atob(b64) == Some(bytes[..]) && Canonical(b64)
  {
    var binary: seq<Byte> := [];
    var i := 0;
    while i < bytes.Length
      invariant binary == bytes[..if i <= bytes.Length then i else bytes.Length]
      decreases bytes.Length - i
    {
      var end := if i + CHUNK <= bytes.Length then i + CHUNK else bytes.Length;
      binary := binary + bytes[i..end];
      i := i + CHUNK;
    }
    assert binary == bytes[..];
    b64 := Btoa(binary);
    AtobUndoesBtoa(binary);
    EncodedIsCanonical(binary);
  }

  /** fromBase64: atob, then a copy into a byte array; None where atob throws. */
  method FromBase64(b64: string) returns (bytes: array?<Byte>)
    ensures bytes == null <==> Atob(b64).None?
    ensures bytes != null ==> fresh(bytes) && bytes[..] == Atob(b64).value
  {
    var binary := Atob(b64);
    if binary.None? { return null; }
    var copy := new Byte[|binary.value|](_ => 0);
    for i := 0 to |binary.value|
      invariant copy[..i] == binary.value[..i]
    {
      copy[i] := binary.value[i];
    }
    assert copy[..] == binary.value;
    bytes := copy;
  }

  /** base64FromUrlSafe: replace, then pad until the length is a multiple of four. */
  method Base64FromUrlSafe(urlSafe: string) returns (b64: string)
    ensures b64 == FromUrlSafe(urlSafe)
  {
    b64 := Replaced(Replaced(urlSafe, '-', '+'), '_', '/');
    ghost var body, k := b64, 0;
    while |b64| % 4 != 0
      invariant k <= |Padding(|urlSafe|)| && b64 == body + Padding(|urlSafe|)[..k]
      decreases |Padding(|urlSafe|)| - k
    {
      PaddedIff(|urlSafe|, k);
      NextPad(body, Padding(|urlSafe|), k);
      b64 := b64 + "=";
      k := k + 1;
    }
    PaddedIff(|urlSafe|, k);
    assert Padding(|urlSafe|)[..k] == Padding(|urlSafe|);
  }

  lemma PaddedIff(n: nat, k: nat)
    requires k <= |Padding(n)|
    ensures (n + k) % 4 == 0 <==> k == |Padding(n)|
  {
  }

  lemma NextPad(body: string, pad: string, k: nat)
    requires k < |pad| && pad[k] == '='
    ensures body + pad[..k] + "=" == body + pad[..k + 1]
  {
  }
}
