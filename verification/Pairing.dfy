/** The pairing code (packages/crypto/src/pairing.ts). */
module Pairing {
  import opened Wrappers
  import opened Text
  import opened Base64
  import opened Binary

  const MAX_SAFE_INTEGER: int := 9_007_199_254_740_991
  const PIN_PREFIX: string := "sha256/"

  datatype Result<+T> = Ok(value: T) | Err(reason: Failure)
  datatype Failure = BadEndpoint | BadPin | BadCode

  /** A JavaScript number that is whole, or NaN. */
  datatype Number = NaN | Whole(n: int)

  datatype Endpoint = Endpoint(address: string, port: Number, certificateSha256: string, sessionId: string,
                               sessionToken: string)
  datatype Payload = Payload(workspaceId: string, pairingToken: string, workspaceKey: string, expiresAt: Number,
                             lanEndpoint: Option<Endpoint>, serverUrl: Option<string>)

  predicate IsSafe(x: Number) { x.Whole? && -MAX_SAFE_INTEGER <= x.n <= MAX_SAFE_INTEGER }

  // ------------------------------------------------------------ numbers

  function NumberText(x: Number): string { if x.NaN? then "NaN" else PrintInt(x.n, 36) }

  predicate IsWhitespace(c: char) {
    var n := c as int;
    9 <= n <= 13 || n in {0x20, 0xA0, 0x1680, 0x2028, 0x2029, 0x202F, 0x205F, 0x3000, 0xFEFF} || 0x2000 <= n <= 0x200A
  }

  /** The blanks of ECMAScript: tab to carriage return, space, no-break space, the separators of other scripts and the
      byte order mark. */
  lemma BlankIff(c: char)
    ensures IsWhitespace(c) <==>
              c as int in [9, 10, 11, 12, 13, 32, 160, 5760, 8192, 8193, 8194, 8195, 8196, 8197, 8198, 8199, 8200, 8201,
                           8202, 8232, 8233, 8239, 8287, 12288, 65279]
  {
    var n := c as int;
    if 9 <= n <= 13 { assert n in [9, 10, 11, 12, 13]; }
  }

  /** Number.isSafeInteger: whole and of fewer than 54 bits. */
  lemma SafeIff(x: Number)
    ensures IsSafe(x) <==> x.Whole? && -(Pow2(53) as int) < x.n < Pow2(53)
  {
    assert Pow2(13) == 8192 && Pow2(20) == 1048576 by {
      assert Pow2(10) == 1024;
      Pow2Sum(10, 10);
      assert Pow2(3) == 8;
      Pow2Sum(10, 3);
    }
    Pow2Sum(20, 20);
    Pow2Sum(40, 13);
    assert Pow2(53) == 1048576 * 1048576 * 8192;
  }

  function TrimStart(s: string): string { if s != "" && IsWhitespace(s[0]) then TrimStart(s[1..]) else s }

  function TrimEnd(s: string): string {
    if s != "" && IsWhitespace(s[|s| - 1]) then TrimEnd(s[..|s| - 1]) else s
  }

  function Trim(s: string): string { TrimEnd(TrimStart(s)) }

  /** How many base-36 digits s begins with. */
  function DigitsAhead(s: string): (n: nat)
    ensures n <= |s| && Text.AllDigits(s[..n], 36) && (n < |s| ==> !IsDigit(s[n], 36))
  {
    if s == "" || !IsDigit(s[0], 36) then 0 else 1 + DigitsAhead(s[1..])
  }

  /** parseInt(s, 36): blanks, a sign, then as many digits as there are. */
  function ParseInt36(s: string): Number {
    var t := TrimStart(s);
    var negative := t != "" && t[0] == '-';
    var u := if t != "" && (t[0] == '-' || t[0] == '+') then t[1..] else t;
    var n := DigitsAhead(u);
    if n == 0 then NaN
    else
      var value: int := ValueOf(u[..n], 36);
      Whole(if negative then -value else value)
  }

  lemma AlnumIsNotBlank(c: char)
    requires IsAlnum(c)
    ensures !IsWhitespace(c) && c != '-' && c != '+' && c != '.'
  {
  }

  /** parseInt undoes toString in base 36 on every whole number. */
  lemma ParseUndoesPrint(n: int)
    ensures ParseInt36(PrintInt(n, 36)) == Whole(n)
  {
    var m: nat := if n < 0 then -n else n;
    ValueOfPrint(m, 36);
    ParseDigits(Print(m, 36));
  }

  lemma AllAhead(s: string)
    requires Text.AllDigits(s, 36)
    ensures DigitsAhead(s) == |s|
  {
    assert forall i :: 0 <= i < |s| ==> IsDigit(s[i], 36);
  }

  lemma ParseDigits(digits: string)
    requires digits != "" && Text.AllDigits(digits, 36)
    ensures ParseInt36(digits) == Whole(ValueOf(digits, 36)) &&
            ParseInt36("-" + digits) == Whole(-(ValueOf(digits, 36) as int))
  {
    AllAhead(digits);
    assert IsDigit(digits[0], 36);
    AlnumIsNotBlank(digits[0]);
    assert digits[..|digits|] == digits;
    assert ("-" + digits)[1..] == digits;
  }

  // ------------------------------------------------------------ the local endpoint

  predicate Octet(s: string) {
    && 1 <= |s| <= 3
    && (forall i :: 0 <= i < |s| ==> '0' <= s[i] <= '9')
    && (s[0] == '0' ==> |s| == 1)
    && (s[0] == '0' || OctetValue(s) <= 255)
  }

  function OctetValue(s: string): nat
    requires forall i :: 0 <= i < |s| ==> '0' <= s[i] <= '9'
  {
    if s == "" then 0 else OctetValue(s[..|s| - 1]) * 10 + (s[|s| - 1] - '0') as nat
  }

  predicate ValidIpv4(address: string) {
    var octets := Split(address, '.');
    |octets| == 4 && forall i :: 0 <= i < 4 ==> Octet(octets[i])
  }

  lemma OctetIsValue(s: string)
    requires 1 <= |s| <= 3 && forall i :: 0 <= i < |s| ==> '0' <= s[i] <= '9'
    ensures Text.AllDigits(s, 10) && OctetValue(s) == ValueOf(s, 10)
  {
    if |s| > 1 { OctetIsValue(s[..|s| - 1]); } else { assert OctetValue("") == 0 && ValueOf("", 10) == 0; }
  }

  lemma SmallPrint(n: nat)
    requires n <= 255
    ensures Octet(Print(n, 10))
  {
    var s := Print(n, 10);
    ValueOfPrint(n, 10);
    if n > 0 { PrintIsPositive(n); }
    if n >= 100 { DivideTwice(n); }
    OctetIsValue(s);
  }

  lemma DivideTwice(n: nat)
    requires 100 <= n <= 255
    ensures |Print(n, 10)| == 3
  {
    var q := Divide(n, 10).0;
    assert |Print(q, 10)| == 2;
  }

  /** A field of an address is valid exactly when it is how a number up to 255 prints. */
  lemma OctetIff(s: string)
    ensures Octet(s) <==> exists n: nat :: n <= 255 && s == Print(n, 10)
  {
    if Octet(s) {
      OctetIsValue(s);
      if s[0] == '0' {
        assert s == Print(0, 10);
      } else {
        PrintOfPositive(s);
        assert ValueOf(s, 10) <= 255;
      }
    }
    forall n: nat | n <= 255 && s == Print(n, 10) ensures Octet(s) { SmallPrint(n); }
  }

  /** Four numbers with dots between them. */
  predicate Dotted(address: string, a: nat, b: nat, c: nat, d: nat) {
    && a <= 255 && b <= 255 && c <= 255 && d <= 255
    && address == Print(a, 10) + "." + Print(b, 10) + "." + Print(c, 10) + "." + Print(d, 10)
  }

  lemma JoinFour(parts: seq<string>)
    requires |parts| == 4
    ensures Join(parts, '.') == parts[0] + "." + parts[1] + "." + parts[2] + "." + parts[3]
  {
    assert parts[..3][..2] == parts[..2] && parts[..2][..1] == parts[..1];
    assert Join(parts[..2], '.') == Join(parts[..1], '.') + "." + parts[1];
    assert Join(parts[..3], '.') == Join(parts[..2], '.') + "." + parts[2];
  }

  lemma DottedIsValid(address: string, a: nat, b: nat, c: nat, d: nat)
    requires Dotted(address, a, b, c, d)
    ensures ValidIpv4(address)
  {
    var parts := [Print(a, 10), Print(b, 10), Print(c, 10), Print(d, 10)];
    SmallPrint(a);
    SmallPrint(b);
    SmallPrint(c);
    SmallPrint(d);
    JoinFour(parts);
    SplitUndoesJoin(parts, '.');
  }

  /** The addresses let through are the ones that print four numbers from 0 to 255 with dots between them. */
  lemma ValidIpv4Iff(address: string)
    ensures ValidIpv4(address) <==> exists a, b, c, d :: Dotted(address, a, b, c, d)
  {
    if ValidIpv4(address) {
      var parts := Split(address, '.');
      forall i | 0 <= i < 4 ensures exists n: nat :: n <= 255 && parts[i] == Print(n, 10) { OctetIff(parts[i]); }
      var a: nat :| a <= 255 && parts[0] == Print(a, 10);
      var b: nat :| b <= 255 && parts[1] == Print(b, 10);
      var c: nat :| c <= 255 && parts[2] == Print(c, 10);
      var d: nat :| d <= 255 && parts[3] == Print(d, 10);
      JoinUndoesSplit(address, '.');
      JoinFour(parts);
      assert Dotted(address, a, b, c, d);
    }
    forall a, b, c, d | Dotted(address, a, b, c, d) ensures ValidIpv4(address) { DottedIsValid(address, a, b, c, d); }
  }

  predicate UrlSafeId(s: string) {
    |s| >= 16 && forall i :: 0 <= i < |s| ==> IsAlnum(s[i]) || s[i] == '_' || s[i] == '-'
  }

  function ValidateLanEndpoint(e: Endpoint): Option<Failure> {
    if !ValidIpv4(e.address) || !IsSafe(e.port) || e.port.n < 1 || e.port.n > 65535
       || !UrlSafeId(e.sessionId) || !UrlSafeId(e.sessionToken) then Some(BadEndpoint)
    else if !(PIN_PREFIX <= e.certificateSha256) then Some(BadPin)
    else
      var pin := Atob(e.certificateSha256[|PIN_PREFIX|..]);
      if pin.None? || |pin.value| != 32 then Some(BadPin) else None
  }

  // ------------------------------------------------------------ the code

  function Fields(p: Payload): seq<string> {
    [p.workspaceId, p.pairingToken, ToUrlSafe(p.workspaceKey), NumberText(p.expiresAt)]
  }

  function EndpointFields(e: Endpoint): seq<string>
    requires PIN_PREFIX <= e.certificateSha256
  {
    [Replaced(e.address, '.', '-'), NumberText(e.port), ToUrlSafe(e.certificateSha256[|PIN_PREFIX|..]), e.sessionId,
     e.sessionToken]
  }

  function EncodePairingPayload(p: Payload): Result<string> {
    if p.lanEndpoint.None? then Ok(Join(["SM1"] + Fields(p), '.'))
    else
      var failure := ValidateLanEndpoint(p.lanEndpoint.value);
      if failure.Some? then Err(failure.value)
      else Ok(Join(["SM2"] + Fields(p) + EndpointFields(p.lanEndpoint.value), '.'))
  }

  predicate NoneEmpty(parts: seq<string>) { forall i :: 0 <= i < |parts| ==> parts[i] != "" }

  function DecodedEndpoint(parts: seq<string>): Endpoint
    requires |parts| == 10
  {
    Endpoint(Replaced(parts[5], '-', '.'), ParseInt36(parts[6]), PIN_PREFIX + FromUrlSafe(parts[7]), parts[8], parts[9])
  }

  function DecodedPayload(parts: seq<string>, endpoint: Option<Endpoint>): Payload
    requires |parts| >= 5
  {
    Payload(parts[1], parts[2], FromUrlSafe(parts[3]), ParseInt36(parts[4]), endpoint, None)
  }

  function DecodePairingPayload(encoded: string): Result<Payload> { DecodedParts(Split(Trim(encoded), '.')) }

  function DecodedParts(parts: seq<string>): Result<Payload>
    requires |parts| > 0
  {
    if parts[0] == "SM1" && |parts| == 5 then
      if !NoneEmpty(parts[1..]) then Err(BadCode) else Ok(DecodedPayload(parts, None))
    else if parts[0] != "SM2" || |parts| != 10 || !NoneEmpty(parts[1..]) then Err(BadCode)
    else
      var endpoint := DecodedEndpoint(parts);
      var failure := ValidateLanEndpoint(endpoint);
      if failure.Some? then Err(failure.value)
      else
        var p := DecodedPayload(parts, Some(endpoint));
        if !IsSafe(p.expiresAt) || p.expiresAt.n < 0 then Err(BadCode) else Ok(p)
  }

  /** Which endpoints are let through. */
  lemma EndpointOkIff(e: Endpoint)
    ensures ValidateLanEndpoint(e).None? <==>
              && ValidIpv4(e.address) && e.port.Whole? && 1 <= e.port.n <= 65535
              && IdText(e.sessionId) && IdText(e.sessionToken)
              && |e.certificateSha256| >= 7 && e.certificateSha256[..7] == "sha256/"
              && Atob(e.certificateSha256[7..]).Some? && |Atob(e.certificateSha256[7..]).value| == 32
    ensures ValidateLanEndpoint(e) == Some(BadPin) ==>
              && ValidIpv4(e.address) && e.port.Whole? && 1 <= e.port.n <= 65535
              && IdText(e.sessionId) && IdText(e.sessionToken)
  {
    assert PIN_PREFIX <= e.certificateSha256 <==> |e.certificateSha256| >= 7 && e.certificateSha256[..7] == "sha256/";
  }

  /** At least 16 characters, each a letter, a digit, '_' or '-'. */
  predicate IdText(s: string) {
    |s| >= 16 && forall i :: 0 <= i < |s| ==>
      'A' <= s[i] <= 'Z' || 'a' <= s[i] <= 'z' || '0' <= s[i] <= '9' || s[i] == '_' || s[i] == '-'
  }

  lemma PlainText(p: Payload, tag: string)
    ensures Join([tag] + Fields(p), '.')
         == tag + "." + p.workspaceId + "." + p.pairingToken + "." + ToUrlSafe(p.workspaceKey) + "."
            + NumberText(p.expiresAt)
  {
    JoinFive(tag, p.workspaceId, p.pairingToken, ToUrlSafe(p.workspaceKey), NumberText(p.expiresAt));
    assert [tag] + Fields(p) ==
           [tag, p.workspaceId, p.pairingToken, ToUrlSafe(p.workspaceKey), NumberText(p.expiresAt)];
  }

  lemma TwoMore(parts: seq<string>, a: string, b: string)
    requires |parts| > 0
    ensures Join(parts + [a, b], '.') == Join(parts, '.') + "." + a + "." + b
  {
    JoinMore(parts, '.', a);
    JoinMore(parts + [a], '.', b);
    Append(parts, [a], [b]);
    assert [a] + [b] == [a, b];
  }

  lemma Append(parts: seq<string>, x: seq<string>, y: seq<string>)
    ensures parts + x + y == parts + (x + y)
  {
  }

  lemma FiveMore(five: seq<string>, a: string, b: string, c: string, d: string, e: string)
    requires |five| > 0
    ensures Join(five + [a, b, c, d, e], '.') == Join(five, '.') + "." + a + "." + b + "." + c + "." + d + "." + e
  {
    TwoMore(five, a, b);
    TwoMore(five + [a, b], c, d);
    JoinMore(five + [a, b] + [c, d], '.', e);
    Append(five, [a, b], [c, d]);
    Append(five, [a, b, c, d], [e]);
    assert [a, b] + [c, d] == [a, b, c, d] && [a, b, c, d] + [e] == [a, b, c, d, e];
  }

  /** A code is its fields in this order with dots between them. */
  lemma CodeText(p: Payload)
    ensures p.lanEndpoint.None? ==>
              EncodePairingPayload(p) == Ok("SM1" + "." + p.workspaceId + "." + p.pairingToken + "."
                                            + ToUrlSafe(p.workspaceKey) + "." + NumberText(p.expiresAt))
    ensures p.lanEndpoint.Some? && EncodePairingPayload(p).Ok? ==>
              var e := p.lanEndpoint.value;
              && |e.certificateSha256| >= 7
              && EncodePairingPayload(p)
                 == Ok("SM2" + "." + p.workspaceId + "." + p.pairingToken + "." + ToUrlSafe(p.workspaceKey) + "."
                       + NumberText(p.expiresAt) + "." + Replaced(e.address, '.', '-') + "." + NumberText(e.port) + "."
                       + ToUrlSafe(e.certificateSha256[7..]) + "." + e.sessionId + "." + e.sessionToken)
  {
    if p.lanEndpoint.None? {
      PlainText(p, "SM1");
    } else if EncodePairingPayload(p).Ok? {
      var e := p.lanEndpoint.value;
      PlainText(p, "SM2");
      FiveMore(["SM2"] + Fields(p), Replaced(e.address, '.', '-'), NumberText(e.port),
               ToUrlSafe(e.certificateSha256[7..]), e.sessionId, e.sessionToken);
    }
  }

  lemma JoinFive(a: string, b: string, c: string, d: string, e: string)
    ensures Join([a, b, c, d, e], '.') == a + "." + b + "." + c + "." + d + "." + e
  {
    JoinFour([a, b, c, d]);
    JoinMore([a, b, c, d], '.', e);
    assert [a, b, c, d, e] == [a, b, c, d] + [e];
  }

  // ------------------------------------------------------------ what survives

  predicate IdOk(s: string) { s != "" && Free(s, '.') }

  /** A base64 text the code can carry: canonical, with something besides padding, and no dot. */
  predicate KeyOk(b64: string) { Canonical(b64) && b64 != "" && Free(b64, '.') }

  function Pin(e: Endpoint): string
    requires PIN_PREFIX <= e.certificateSha256
  {
    e.certificateSha256[|PIN_PREFIX|..]
  }

  /** The payloads whose code decodes to them again; all of it can be checked before encoding. */
  predicate Carriable(p: Payload) {
    && IdOk(p.workspaceId) && IdOk(p.pairingToken) && KeyOk(p.workspaceKey) && p.expiresAt.Whole?
    && (p.lanEndpoint.Some? ==>
          && ValidateLanEndpoint(p.lanEndpoint.value).None? && KeyOk(Pin(p.lanEndpoint.value)) && p.expiresAt.n >= 0)
  }

  // ------------------------------------------------------------ field by field

  lemma KeySurvivesIff(b64: string)
    ensures KeyOk(b64) <==> FromUrlSafe(ToUrlSafe(b64)) == b64 && ToUrlSafe(b64) != "" && Free(ToUrlSafe(b64), '.')
  {
    UrlSafeRoundTripIff(b64);
    ToUrlSafeIs(b64);
    var n, u := BodyLength(b64), ToUrlSafe(b64);
    if Canonical(b64) && b64 != "" { assert n > |b64| - 4; }
  }

  /** An expiry survives unless it is NaN. */
  lemma NumberSurvivesIff(x: Number)
    ensures ParseInt36(NumberText(x)) == x <==> x.Whole?
    ensures NumberText(x) != "" && Free(NumberText(x), '.') && !IsWhitespace(NumberText(x)[|NumberText(x)| - 1])
  {
    if x.Whole? { ParseUndoesPrint(x.n); }
  }

  lemma {:induction false} FreeOfOther(s: string, sep: char, c: char)
    requires c != sep && AllFree(Split(s, sep), c)
    ensures Free(s, c)
  {
    if s != "" {
      var init, last := s[..|s| - 1], s[|s| - 1];
      var before, parts := Split(init, sep), Split(s, sep);
      var k := |before| - 1;
      forall i | 0 <= i < |before| ensures Free(before[i], c) {
        assert Free(parts[i], c);
        if last != sep && i == k { assert forall j :: 0 <= j < |before[k]| ==> before[k][j] == parts[k][j]; }
      }
      FreeOfOther(init, sep, c);
      if last != sep { assert parts[k][|before[k]|] == last; }
      forall i | 0 <= i < |s| ensures s[i] != c { if i < |init| { assert s[i] == init[i]; } }
    }
  }

  lemma AddressSurvives(address: string)
    requires ValidIpv4(address)
    ensures var dashed := Replaced(address, '.', '-');
            Replaced(dashed, '-', '.') == address && Free(dashed, '.') && dashed != ""
  {
    var octets := Split(address, '.');
    forall i | 0 <= i < |octets| ensures Free(octets[i], '-') { assert Octet(octets[i]); }
    FreeOfOther(address, '.', '-');
    var dashed := Replaced(address, '.', '-');
    assert Replaced(dashed, '-', '.') == address;
    assert Split("", '.') == [""];
  }

  lemma IdSurvives(s: string)
    requires UrlSafeId(s)
    ensures IdOk(s) && !IsWhitespace(s[|s| - 1])
  {
    forall i | 0 <= i < |s| ensures s[i] != '.' && !IsWhitespace(s[i]) { if IsAlnum(s[i]) { AlnumIsNotBlank(s[i]); } }
  }

  // ------------------------------------------------------------ the whole code

  function Parts(p: Payload): seq<string>
    requires p.lanEndpoint.Some? ==> PIN_PREFIX <= p.lanEndpoint.value.certificateSha256
  {
    if p.lanEndpoint.None? then ["SM1"] + Fields(p) else ["SM2"] + Fields(p) + EndpointFields(p.lanEndpoint.value)
  }

  lemma TrimKeeps(s: string)
    requires s != "" && !IsWhitespace(s[0]) && !IsWhitespace(s[|s| - 1])
    ensures Trim(s) == s
  {
  }

  lemma {:induction false} JoinFirst(parts: seq<string>, sep: char)
    requires |parts| > 0 && parts[0] != ""
    ensures Join(parts, sep) != "" && Join(parts, sep)[0] == parts[0][0]
  {
    var n := |parts| - 1;
    if n > 0 { JoinFirst(parts[..n], sep); }
  }

  lemma JoinLast(parts: seq<string>, sep: char)
    requires |parts| > 0 && parts[|parts| - 1] != ""
    ensures Join(parts, sep) != "" &&
            Join(parts, sep)[|Join(parts, sep)| - 1] == parts[|parts| - 1][|parts[|parts| - 1]| - 1]
  {
  }

  /** No blank at either end of a code. */
  lemma CodeIsTrimmed(p: Payload)
    requires EncodePairingPayload(p).Ok?
    ensures Trim(EncodePairingPayload(p).value) == EncodePairingPayload(p).value
  {
    var parts := Parts(p);
    NumberSurvivesIff(p.expiresAt);
    if p.lanEndpoint.Some? { IdSurvives(p.lanEndpoint.value.sessionToken); }
    JoinFirst(parts, '.');
    JoinLast(parts, '.');
    TrimKeeps(Join(parts, '.'));
  }

  lemma DecodesParts(p: Payload)
    requires EncodePairingPayload(p).Ok? && AllFree(Parts(p), '.')
    ensures DecodePairingPayload(EncodePairingPayload(p).value) == DecodedParts(Parts(p))
  {
    CodeIsTrimmed(p);
    SplitUndoesJoin(Parts(p), '.');
  }

  /** A dot inside a field never goes unnoticed. */
  lemma DottedFieldRejected(p: Payload)
    requires EncodePairingPayload(p).Ok? && !AllFree(Parts(p), '.')
    ensures DecodePairingPayload(EncodePairingPayload(p).value) != Ok(p.(serverUrl := None))
  {
    CodeIsTrimmed(p);
    SplitCountIff(Parts(p), '.');
  }

  predicate FieldsFree(p: Payload) {
    Free(p.workspaceId, '.') && Free(p.pairingToken, '.') && Free(ToUrlSafe(p.workspaceKey), '.')
  }

  lemma AllFreeAppend(a: seq<string>, b: seq<string>, c: char)
    ensures AllFree(a + b, c) <==> AllFree(a, c) && AllFree(b, c)
  {
    if AllFree(a + b, c) {
      forall i | 0 <= i < |a| ensures Free(a[i], c) { assert Free((a + b)[i], c); }
      forall i | 0 <= i < |b| ensures Free(b[i], c) { assert Free((a + b)[|a| + i], c); }
    }
  }

  lemma FieldsFreeIff(p: Payload)
    ensures AllFree(Fields(p), '.') <==> FieldsFree(p)
  {
    NumberSurvivesIff(p.expiresAt);
    var f := Fields(p);
    if AllFree(f, '.') { assert Free(f[0], '.') && Free(f[1], '.') && Free(f[2], '.'); }
  }

  lemma EndpointFreeIff(e: Endpoint)
    requires ValidateLanEndpoint(e).None?
    ensures AllFree(EndpointFields(e), '.') <==> Free(ToUrlSafe(Pin(e)), '.')
  {
    AddressSurvives(e.address);
    NumberSurvivesIff(e.port);
    IdSurvives(e.sessionId);
    IdSurvives(e.sessionToken);
    var f := EndpointFields(e);
    if AllFree(f, '.') { assert Free(f[2], '.'); }
  }

  lemma PartsFreeIff(p: Payload)
    requires EncodePairingPayload(p).Ok?
    ensures AllFree(Parts(p), '.') <==>
            FieldsFree(p) && (p.lanEndpoint.Some? ==> Free(ToUrlSafe(Pin(p.lanEndpoint.value)), '.'))
  {
    FieldsFreeIff(p);
    if p.lanEndpoint.None? {
      AllFreeAppend(["SM1"], Fields(p), '.');
    } else {
      EndpointFreeIff(p.lanEndpoint.value);
      AllFreeAppend(["SM2"], Fields(p), '.');
      AllFreeAppend(["SM2"] + Fields(p), EndpointFields(p.lanEndpoint.value), '.');
    }
  }

  /** The fields every code has. */
  predicate FieldsSurvive(p: Payload) {
    && p.workspaceId != "" && p.pairingToken != "" && ToUrlSafe(p.workspaceKey) != ""
    && FromUrlSafe(ToUrlSafe(p.workspaceKey)) == p.workspaceKey && ParseInt36(NumberText(p.expiresAt)) == p.expiresAt
  }

  lemma PlainCodeIff(p: Payload)
    requires p.lanEndpoint.None?
    ensures DecodedParts(Parts(p)) == Ok(p.(serverUrl := None)) <==> FieldsSurvive(p)
  {
    var parts := Parts(p);
    NumberSurvivesIff(p.expiresAt);
    assert parts[1..] == Fields(p);
    assert DecodedPayload(parts, None) ==
      Payload(p.workspaceId, p.pairingToken, FromUrlSafe(ToUrlSafe(p.workspaceKey)),
              ParseInt36(NumberText(p.expiresAt)), None, None);
  }

  lemma EndpointSurvivesIff(e: Endpoint, parts: seq<string>)
    requires ValidateLanEndpoint(e).None? && |parts| == 10 && parts[5..] == EndpointFields(e)
    ensures DecodedEndpoint(parts) == e <==> FromUrlSafe(ToUrlSafe(Pin(e))) == Pin(e)
    ensures parts[5] != "" && parts[6] != "" && parts[8] != "" && parts[9] != ""
  {
    assert parts[5] == parts[5..][0] && parts[6] == parts[5..][1] && parts[7] == parts[5..][2] &&
           parts[8] == parts[5..][3] && parts[9] == parts[5..][4];
    AddressSurvives(e.address);
    NumberSurvivesIff(e.port);
    assert PIN_PREFIX + Pin(e) == e.certificateSha256;
    var back := FromUrlSafe(ToUrlSafe(Pin(e)));
    assert (PIN_PREFIX + back)[|PIN_PREFIX|..] == back;
  }

  lemma EndpointCodeIff(p: Payload)
    requires p.lanEndpoint.Some? && ValidateLanEndpoint(p.lanEndpoint.value).None? &&
             (p.expiresAt.Whole? ==> IsSafe(p.expiresAt))
    ensures var e := p.lanEndpoint.value;
            DecodedParts(Parts(p)) == Ok(p.(serverUrl := None)) <==>
              FieldsSurvive(p) && p.expiresAt.Whole? && p.expiresAt.n >= 0
              && ToUrlSafe(Pin(e)) != "" && FromUrlSafe(ToUrlSafe(Pin(e))) == Pin(e)
  {
    var e, parts := p.lanEndpoint.value, Parts(p);
    NumberSurvivesIff(p.expiresAt);
    assert parts[5..] == EndpointFields(e) && parts[7] == ToUrlSafe(Pin(e));
    EndpointSurvivesIff(e, parts);
    NoneEmptyIs(parts, p.workspaceId, p.pairingToken, ToUrlSafe(p.workspaceKey), ToUrlSafe(Pin(e)));
    assert DecodedPayload(parts, Some(DecodedEndpoint(parts))) ==
      Payload(p.workspaceId, p.pairingToken, FromUrlSafe(ToUrlSafe(p.workspaceKey)),
              ParseInt36(NumberText(p.expiresAt)),
              Some(DecodedEndpoint(parts)), None);
  }

  lemma NoneEmptyIs(parts: seq<string>, id: string, token: string, key: string, pin: string)
    requires |parts| == 10 && parts[1] == id && parts[2] == token && parts[3] == key && parts[7] == pin
    requires parts[4] != "" && parts[5] != "" && parts[6] != "" && parts[8] != "" && parts[9] != ""
    ensures NoneEmpty(parts[1..]) <==> id != "" && token != "" && key != "" && pin != ""
  {
    var rest := parts[1..];
    if NoneEmpty(rest) { assert rest[0] != "" && rest[1] != "" && rest[2] != "" && rest[6] != ""; }
  }

  /** Encoding and decoding: for every payload with a whole safe expiry or NaN, the code is produced and decodes to the
      payload, less its server URL, exactly when the payload is carriable. */
  lemma PairingRoundTripIff(p: Payload)
    requires p.expiresAt.Whole? ==> IsSafe(p.expiresAt)
    ensures EncodePairingPayload(p).Ok? &&
            DecodePairingPayload(EncodePairingPayload(p).value) == Ok(p.(serverUrl := None))
       <==> Carriable(p)
  {
    NumberSurvivesIff(p.expiresAt);
    KeySurvivesIff(p.workspaceKey);
    if EncodePairingPayload(p).Ok? {
      PartsFreeIff(p);
      if p.lanEndpoint.Some? { KeySurvivesIff(Pin(p.lanEndpoint.value)); EndpointCodeIff(p); } else { PlainCodeIff(p); }
      if AllFree(Parts(p), '.') { DecodesParts(p); } else { DottedFieldRejected(p); }
    }
  }

  predicate Blank(s: string) { forall i :: 0 <= i < |s| ==> IsWhitespace(s[i]) }

  lemma {:induction false} TrimBlanks(before: string, s: string, after: string)
    requires Blank(before) && Blank(after) && s != "" && !IsWhitespace(s[0]) && !IsWhitespace(s[|s| - 1])
    ensures Trim(before + s + after) == s
    decreases |before| + |after|
  {
    var t := before + s + after;
    if before != "" {
      assert t[1..] == before[1..] + s + after && t[0] == before[0];
      TrimBlanks(before[1..], s, after);
    } else {
      assert t == s + after && t[0] == s[0] && TrimStart(t) == t;
      TrimEndBlanks(s, after);
    }
  }

  lemma {:induction false} TrimEndBlanks(s: string, after: string)
    requires Blank(after) && s != "" && !IsWhitespace(s[|s| - 1])
    ensures TrimEnd(s + after) == s
    decreases |after|
  {
    if after == "" {
      assert s + after == s;
    } else {
      var t := s + after;
      assert t[|t| - 1] == after[|after| - 1] && t[..|t| - 1] == s + after[..|after| - 1];
      TrimEndBlanks(s, after[..|after| - 1]);
    }
  }

  /** Blanks around a code, as pasted text may have them, change nothing. */
  lemma BlanksIgnored(p: Payload, before: string, after: string)
    requires EncodePairingPayload(p).Ok? && Blank(before) && Blank(after)
    ensures DecodePairingPayload(before + EncodePairingPayload(p).value + after)
         == DecodePairingPayload(EncodePairingPayload(p).value)
  {
    var code := EncodePairingPayload(p).value;
    CodeIsTrimmed(p);
    EdgesAreNotBlank(p);
    TrimBlanks(before, code, after);
  }

  lemma EdgesAreNotBlank(p: Payload)
    requires EncodePairingPayload(p).Ok?
    ensures var code := EncodePairingPayload(p).value;
            code != "" && !IsWhitespace(code[0]) && !IsWhitespace(code[|code| - 1])
  {
    var parts := Parts(p);
    NumberSurvivesIff(p.expiresAt);
    if p.lanEndpoint.Some? { IdSurvives(p.lanEndpoint.value.sessionToken); }
    JoinFirst(parts, '.');
    JoinLast(parts, '.');
  }

  /** Carriable payloads that differ in anything but the server URL have different codes. */
  lemma CodesDiffer(p: Payload, q: Payload)
    requires Carriable(p) && Carriable(q) && IsSafe(p.expiresAt) && IsSafe(q.expiresAt)
    ensures EncodePairingPayload(p) == EncodePairingPayload(q) <==> p.(serverUrl := None) == q.(serverUrl := None)
  {
    PairingRoundTripIff(p);
    PairingRoundTripIff(q);
  }

  /** A payload made the way the application makes it, with a key and a pin that are base64 of bytes, is carriable. */
  lemma ApplicationPayloadsCarriable(p: Payload, key: seq<Byte>, pin: seq<Byte>)
    requires IdOk(p.workspaceId) && IdOk(p.pairingToken) && IsSafe(p.expiresAt) && p.expiresAt.n >= 0
    requires key != [] && p.workspaceKey == Btoa(key)
    requires p.lanEndpoint.Some? ==>
      && |pin| == 32 && p.lanEndpoint.value.certificateSha256 == PIN_PREFIX + Btoa(pin)
      && ValidIpv4(p.lanEndpoint.value.address) && p.lanEndpoint.value.port.Whole? &&
        1 <= p.lanEndpoint.value.port.n <= 65535
      && UrlSafeId(p.lanEndpoint.value.sessionId) && UrlSafeId(p.lanEndpoint.value.sessionToken)
    ensures Carriable(p) && DecodePairingPayload(EncodePairingPayload(p).value) == Ok(p.(serverUrl := None))
  {
    KeyOfBytes(key);
    if p.lanEndpoint.Some? {
      KeyOfBytes(pin);
      AtobUndoesBtoa(pin);
      assert Pin(p.lanEndpoint.value) == Btoa(pin);
    }
    PairingRoundTripIff(p);
  }

  lemma KeyOfBytes(bytes: seq<Byte>)
    requires bytes != []
    ensures KeyOk(Btoa(bytes))
  {
    EncodedIsCanonical(bytes);
  }
}
