/** What the signatures cover: canonicalBytes of an envelope (packages/crypto/src/envelope.ts) and
    pairingRotationAuthorizationBytes (packages/protocol/src/relay.ts), as text. */
module SignedBytes {
  import opened Wrappers
  import opened Text
  import opened SharedText
  import Base64

  /** A SecureEnvelope without its signature. */
  datatype Unsigned = Unsigned(version: int, messageId: string, senderDeviceId: string, recipientDeviceId: string,
                               workspaceId: string, createdAt: int, expiresAt: Option<int>, sequenceNumber: int,
                               ratchetPublicKeyB64: string, messageNumber: int, previousChainLength: int,
                               ciphertext: seq<Base64.Byte>)

  function OptionalText(x: Option<int>): string { if x.None? then "" else PrintInt(x.value, 10) }

  function Head(e: Unsigned): seq<string> {
    [PrintInt(e.version, 10), e.messageId, e.senderDeviceId, e.recipientDeviceId, e.workspaceId,
     PrintInt(e.createdAt, 10),
     OptionalText(e.expiresAt), PrintInt(e.sequenceNumber, 10), e.ratchetPublicKeyB64, PrintInt(e.messageNumber, 10),
     PrintInt(e.previousChainLength, 10)]
  }

  function CanonicalText(e: Unsigned): string { Join(Head(e), '|') + "|" + Base64.Btoa(e.ciphertext) }

  /** The ids hold no bar. */
  predicate BarFree(e: Unsigned) {
    && Free(e.messageId, '|') && Free(e.senderDeviceId, '|') && Free(e.recipientDeviceId, '|')
    && Free(e.workspaceId, '|') && Free(e.ratchetPublicKeyB64, '|')
  }

  datatype Rotation = Rotation(deviceId: string, pairingToken: string, tokenExpiresAt: int, issuedAt: int,
                               nonce: string)

  const OWNER_ACTION: string := "screenmesh-owner-action-v1"
  const ROTATE: string := "rotate-pairing"

  function RotationFields(workspaceId: string, r: Rotation): seq<string> {
    [OWNER_ACTION, ROTATE, workspaceId, r.deviceId, r.pairingToken, PrintInt(r.tokenExpiresAt, 10),
     PrintInt(r.issuedAt, 10), r.nonce]
  }

  function RotationText(workspaceId: string, r: Rotation): string { Join(RotationFields(workspaceId, r), '\n') }

  predicate NewlineFree(workspaceId: string, r: Rotation) {
    Free(workspaceId, '\n') && Free(r.deviceId, '\n') && Free(r.pairingToken, '\n') && Free(r.nonce, '\n')
  }

  lemma JoinSix(a: string, b: string, c: string, d: string, e: string, f: string, sep: char)
    ensures Join([a, b, c, d, e, f], sep)
         == a + [sep] + b + [sep] + c + [sep] + d + [sep] + e + [sep] + f
  {
    assert [a] + [b] == [a, b] && [a, b] + [c] == [a, b, c] && [a, b, c] + [d] == [a, b, c, d];
    assert [a, b, c, d] + [e] == [a, b, c, d, e] && [a, b, c, d, e] + [f] == [a, b, c, d, e, f];
    JoinMore([a], sep, b);
    JoinMore([a, b], sep, c);
    JoinMore([a, b, c], sep, d);
    JoinMore([a, b, c, d], sep, e);
    JoinMore([a, b, c, d, e], sep, f);
  }

  /** The signed text of an envelope: these fields in this order with bars between them. */
  lemma CanonicalTextIs(e: Unsigned)
    ensures CanonicalText(e)
         == PrintInt(e.version, 10) + "|" + e.messageId + "|" + e.senderDeviceId + "|" + e.recipientDeviceId + "|"
            + e.workspaceId + "|" + PrintInt(e.createdAt, 10) + "|"
            + (if e.expiresAt.Some? then PrintInt(e.expiresAt.value, 10) else "") + "|"
            + PrintInt(e.sequenceNumber, 10) + "|" + e.ratchetPublicKeyB64 + "|" + PrintInt(e.messageNumber, 10) + "|"
            + PrintInt(e.previousChainLength, 10) + "|" + Base64.Btoa(e.ciphertext)
  {
    var f := Head(e);
    JoinSix(f[0], f[1], f[2], f[3], f[4], f[5], '|');
    assert [f[0], f[1], f[2], f[3], f[4], f[5]] == f[..6];
    JoinMore(f[..6], '|', f[6]);
    assert f[..6] + [f[6]] == f[..7];
    JoinMore(f[..7], '|', f[7]);
    assert f[..7] + [f[7]] == f[..8];
    JoinMore(f[..8], '|', f[8]);
    assert f[..8] + [f[8]] == f[..9];
    JoinMore(f[..9], '|', f[9]);
    assert f[..9] + [f[9]] == f[..10];
    JoinMore(f[..10], '|', f[10]);
    assert f[..10] + [f[10]] == f;
  }

  /** And of a rotation, with newlines. */
  lemma RotationTextIs(workspaceId: string, r: Rotation)
    ensures RotationText(workspaceId, r)
         == "screenmesh-owner-action-v1" + "\n" + "rotate-pairing" + "\n" + workspaceId + "\n" + r.deviceId + "\n"
            + r.pairingToken + "\n" + PrintInt(r.tokenExpiresAt, 10) + "\n" + PrintInt(r.issuedAt, 10) + "\n" + r.nonce
  {
    var f := RotationFields(workspaceId, r);
    JoinSix(f[0], f[1], f[2], f[3], f[4], f[5], '\n');
    assert [f[0], f[1], f[2], f[3], f[4], f[5]] == f[..6];
    JoinMore(f[..6], '\n', f[6]);
    assert f[..6] + [f[6]] == f[..7];
    JoinMore(f[..7], '\n', f[7]);
    assert f[..7] + [f[7]] == f;
  }

  // ------------------------------------------------------------ fields

  lemma OptionalInjective(a: Option<int>, b: Option<int>)
    ensures OptionalText(a) == OptionalText(b) <==> a == b
  {
    if a.Some? && b.Some? { PrintIntInjective(a.value, b.value, 10); }
  }

  function AllFields(e: Unsigned): seq<string> { Head(e) + [Base64.Btoa(e.ciphertext)] }

  lemma CiphertextFree(bytes: seq<Base64.Byte>)
    ensures Free(Base64.Btoa(bytes), '|')
  {
    Base64.DigitsShape(bytes);
    var digits, s := Base64.Digits(bytes), Base64.Btoa(bytes);
    forall i | 0 <= i < |s| ensures s[i] != '|' { if i < |digits| { assert s[i] == digits[i]; } }
  }

  lemma FieldsFreeIff(e: Unsigned)
    ensures AllFree(AllFields(e), '|') <==> BarFree(e)
  {
    var f := AllFields(e);
    CiphertextFree(e.ciphertext);
    if AllFree(f, '|') {
      assert Free(f[1], '|') && Free(f[2], '|') && Free(f[3], '|') && Free(f[4], '|') && Free(f[8], '|');
    }
  }

  lemma HeadInjective(a: Unsigned, b: Unsigned)
    requires Head(a) == Head(b)
    ensures a == b.(ciphertext := a.ciphertext)
  {
    var f, g := Head(a), Head(b);
    assert f[0] == g[0] && f[1] == g[1] && f[2] == g[2] && f[3] == g[3] && f[4] == g[4] && f[5] == g[5];
    assert f[6] == g[6] && f[7] == g[7] && f[8] == g[8] && f[9] == g[9] && f[10] == g[10];
    PrintIntInjective(a.version, b.version, 10);
    PrintIntInjective(a.createdAt, b.createdAt, 10);
    OptionalInjective(a.expiresAt, b.expiresAt);
    PrintIntInjective(a.sequenceNumber, b.sequenceNumber, 10);
    PrintIntInjective(a.messageNumber, b.messageNumber, 10);
    PrintIntInjective(a.previousChainLength, b.previousChainLength, 10);
  }

  lemma FieldsInjective(a: Unsigned, b: Unsigned)
    requires AllFields(a) == AllFields(b)
    ensures a == b
  {
    var f, g := AllFields(a), AllFields(b);
    assert f[..11] == Head(a) && g[..11] == Head(b) && f[11] == g[11];
    HeadInjective(a, b);
    Base64.AtobUndoesBtoa(a.ciphertext);
    Base64.AtobUndoesBtoa(b.ciphertext);
  }

  /** Two field lists of one length, one of them free of the separator, joined to the same text. */
  lemma SameFields(f: seq<string>, g: seq<string>, sep: char)
    requires |f| == |g| > 0 && AllFree(f, sep) && Join(f, sep) == Join(g, sep)
    ensures f == g
  {
    SplitCountIff(f, sep);
    SplitCountIff(g, sep);
    JoinInjective(f, g, sep);
  }

  // ------------------------------------------------------------ one text, one meaning

  /** The signed text of an envelope whose ids hold no bar is that of no other envelope whatever: every field counts,
      an absent expiry is not a present one, and no other ids, with bars or without, give the same text. */
  lemma CanonicalTextUnambiguous(a: Unsigned, b: Unsigned)
    requires BarFree(a)
    ensures CanonicalText(a) == CanonicalText(b) <==> a == b
  {
    if CanonicalText(a) == CanonicalText(b) {
      FieldsFreeIff(a);
      SameFields(AllFields(a), AllFields(b), '|');
      FieldsInjective(a, b);
    }
  }

  // ------------------------------------------------------------ exactly when a text is shared

  /** The fields of an envelope by where a bar may stand. */
  function Parts(e: Unsigned): Fields {
    Fields([PrintInt(e.version, 10)],
           [e.messageId, e.senderDeviceId, e.recipientDeviceId, e.workspaceId],
           [PrintInt(e.createdAt, 10), OptionalText(e.expiresAt), PrintInt(e.sequenceNumber, 10)],
           e.ratchetPublicKeyB64,
           [PrintInt(e.messageNumber, 10), PrintInt(e.previousChainLength, 10), Base64.Btoa(e.ciphertext)])
  }

  lemma TextOfParts(e: Unsigned)
    ensures CanonicalText(e) == Join(List(Parts(e)), '|')
  {
    var f := AllFields(e);
    assert f[..|f| - 1] == Head(e) && f[|f| - 1] == Base64.Btoa(e.ciphertext);
    PartsList(e);
  }

  lemma PartsPlain(e: Unsigned)
    ensures Plain(Parts(e), '|')
  {
    CiphertextFree(e.ciphertext);
  }

  /** A bar in one of the four ids. */
  predicate BarInIds(e: Unsigned) { !AllFree(Parts(e).ids, '|') }

  /** Some way into a ratchet key with bars, the pieces read as a creation time, an expiry and a sequence number. */
  predicate KeyReadsAsNumbers(e: Unsigned) {
    var t := Tail(Parts(e), '|');
    exists j :: 1 <= j < |Split(e.ratchetPublicKeyB64, '|')| &&
                WholeText(t[j]) && (t[j + 1] == "" || WholeText(t[j + 1])) && WholeText(t[j + 2])
  }

  /** The envelope with other ids, middle fields and ratchet key. */
  function WithParts(e: Unsigned, ids: seq<string>, created: int, expires: Option<int>, number: int,
                     key: string): Unsigned
    requires |ids| == 4
  {
    e.(messageId := ids[0], senderDeviceId := ids[1], recipientDeviceId := ids[2], workspaceId := ids[3],
       createdAt := created, expiresAt := expires, sequenceNumber := number, ratchetPublicKeyB64 := key)
  }

  lemma BarsShareText(e: Unsigned) returns (b: Unsigned)
    requires BarInIds(e)
    ensures b != e && CanonicalText(b) == CanonicalText(e)
  {
    var ids := IdsShareText(Parts(e), '|');
    b := WithParts(e, ids, e.createdAt, e.expiresAt, e.sequenceNumber, e.ratchetPublicKeyB64);
    assert Parts(b).ids == ids;
    TextOfParts(e);
    TextOfParts(b);
  }

  lemma NumberOf(t: string) returns (n: int)
    requires WholeText(t)
    ensures PrintInt(n, 10) == t
  {
    WholeTextIff(t);
    n :| PrintInt(n, 10) == t;
  }

  lemma OptionalOf(t: string) returns (x: Option<int>)
    requires t == "" || WholeText(t)
    ensures OptionalText(x) == t
  {
    if t == "" {
      x := None;
    } else {
      var n := NumberOf(t);
      x := Some(n);
    }
  }

  lemma KeySharesText(e: Unsigned) returns (b: Unsigned)
    requires KeyReadsAsNumbers(e)
    ensures b != e && CanonicalText(b) == CanonicalText(e)
  {
    var t := Tail(Parts(e), '|');
    var j: nat :| 1 <= j < |Split(e.ratchetPublicKeyB64, '|')| &&
                  WholeText(t[j]) && (t[j + 1] == "" || WholeText(t[j + 1])) && WholeText(t[j + 2]);
    b := KeyAt(e, j);
  }

  lemma KeyAt(e: Unsigned, j: nat) returns (b: Unsigned)
    requires 1 <= j < |Split(e.ratchetPublicKeyB64, '|')|
    requires var t := Tail(Parts(e), '|');
             WholeText(t[j]) && (t[j + 1] == "" || WholeText(t[j + 1])) && WholeText(t[j + 2])
    ensures b != e && CanonicalText(b) == CanonicalText(e)
  {
    var g, t := Shifted(Parts(e), j, '|'), Tail(Parts(e), '|');
    assert g.mid[0] == t[j] && g.mid[1] == t[j + 1] && g.mid[2] == t[j + 2];
    b := FromParts(e, g);
    ShiftSharesText(Parts(e), j, '|');
    TextOfParts(e);
    TextOfParts(b);
  }

  /** Fields whose middle ones are number texts are those of an envelope. */
  lemma FromParts(e: Unsigned, g: Fields) returns (b: Unsigned)
    requires g.pre == Parts(e).pre && g.post == Parts(e).post && |g.ids| == 4 && |g.mid| == 3
    requires WholeText(g.mid[0]) && (g.mid[1] == "" || WholeText(g.mid[1])) && WholeText(g.mid[2])
    ensures Parts(b) == g
  {
    var created := NumberOf(g.mid[0]);
    var expires := OptionalOf(g.mid[1]);
    var number := NumberOf(g.mid[2]);
    b := WithParts(e, g.ids, created, expires, number, g.key);
    assert Parts(b).ids == g.ids && Parts(b).mid == g.mid;
  }

  lemma SamePartsSame(a: Unsigned, b: Unsigned)
    requires Parts(a) == Parts(b)
    ensures a == b
  {
    SameLists(Parts(a), Parts(b), a, b);
    FieldsInjective(a, b);
  }

  lemma SameLists(f: Fields, g: Fields, a: Unsigned, b: Unsigned)
    requires f == g && f == Parts(a) && g == Parts(b)
    ensures AllFields(a) == AllFields(b)
  {
    PartsList(a);
    PartsList(b);
  }

  lemma PartsList(e: Unsigned)
    ensures List(Parts(e)) == AllFields(e)
  {
  }

  lemma MidTexts(e: Unsigned)
    ensures var mid := Parts(e).mid; WholeText(mid[0]) && (mid[1] == "" || WholeText(mid[1])) && WholeText(mid[2])
  {
    WholeTextIff(Parts(e).mid[0]);
    WholeTextIff(Parts(e).mid[1]);
    WholeTextIff(Parts(e).mid[2]);
  }

  lemma SharedOnlyIf(e: Unsigned, b: Unsigned)
    requires b != e && CanonicalText(b) == CanonicalText(e) && !BarInIds(e)
    ensures KeyReadsAsNumbers(e)
  {
    TextOfParts(e);
    TextOfParts(b);
    PartsPlain(e);
    PartsPlain(b);
    SameTextIs(Parts(e), Parts(b), '|');
    if Parts(e) == Parts(b) { SamePartsSame(e, b); } else {
      var j: nat :| Shift(Parts(e), Parts(b).mid, j, '|');
      ShiftReads(e, b, j);
    }
  }

  lemma ShiftReads(e: Unsigned, b: Unsigned, j: nat)
    requires Shift(Parts(e), Parts(b).mid, j, '|')
    ensures KeyReadsAsNumbers(e)
  {
    MidTexts(b);
    ShiftAt(Parts(e), Parts(b).mid, j, 0, '|');
    ShiftAt(Parts(e), Parts(b).mid, j, 1, '|');
    ShiftAt(Parts(e), Parts(b).mid, j, 2, '|');
  }

  /** Exactly which envelopes share their signed text with another: those with a bar in an id, and those whose ratchet
      key has bars with numbers in the right places between them. */
  lemma TextSharedIff(e: Unsigned)
    ensures (exists b :: b != e && CanonicalText(b) == CanonicalText(e)) <==> BarInIds(e) || KeyReadsAsNumbers(e)
  {
    if BarInIds(e) {
      var b := BarsShareText(e);
    } else if KeyReadsAsNumbers(e) {
      var b := KeySharesText(e);
    }
    forall b | b != e && CanonicalText(b) == CanonicalText(e) ensures BarInIds(e) || KeyReadsAsNumbers(e) {
      if !BarInIds(e) { SharedOnlyIf(e, b); }
    }
  }

  /** The text authorising a pairing rotation, when its ids hold no newline, is that of no other request or
      workspace. */
  lemma RotationTextUnambiguous(w: string, r: Rotation, v: string, q: Rotation)
    requires NewlineFree(w, r)
    ensures RotationText(w, r) == RotationText(v, q) <==> w == v && r == q
  {
    if RotationText(w, r) == RotationText(v, q) {
      var f, g := RotationFields(w, r), RotationFields(v, q);
      SameFields(f, g, '\n');
      assert f[2] == g[2] && f[3] == g[3] && f[4] == g[4] && f[5] == g[5] && f[6] == g[6] && f[7] == g[7];
      PrintIntInjective(r.tokenExpiresAt, q.tokenExpiresAt, 10);
      PrintIntInjective(r.issuedAt, q.issuedAt, 10);
    }
  }

  function RotationParts(w: string, r: Rotation): Fields {
    Fields([OWNER_ACTION, ROTATE], [w, r.deviceId, r.pairingToken],
           [PrintInt(r.tokenExpiresAt, 10), PrintInt(r.issuedAt, 10)], r.nonce, [])
  }

  lemma RotationOfParts(w: string, r: Rotation)
    ensures RotationFields(w, r) == List(RotationParts(w, r)) && Plain(RotationParts(w, r), '\n')
  {
  }

  /** A newline in one of the three ids. */
  predicate NewlineInIds(w: string, r: Rotation) { !AllFree(RotationParts(w, r).ids, '\n') }

  /** Some way into a nonce with newlines, the pieces read as the two times. */
  predicate NonceReadsAsTimes(w: string, r: Rotation) {
    var t := Tail(RotationParts(w, r), '\n');
    exists j :: 1 <= j < |Split(r.nonce, '\n')| && WholeText(t[j]) && WholeText(t[j + 1])
  }

  predicate SharesRotation(w: string, r: Rotation, v: string, q: Rotation) {
    (v != w || q != r) && RotationText(v, q) == RotationText(w, r)
  }

  lemma NewlinesShareText(w: string, r: Rotation) returns (v: string, q: Rotation)
    requires NewlineInIds(w, r)
    ensures SharesRotation(w, r, v, q)
  {
    var ids := IdsShareText(RotationParts(w, r), '\n');
    v, q := ids[0], r.(deviceId := ids[1], pairingToken := ids[2]);
    assert RotationParts(v, q) == RotationParts(w, r).(ids := ids) by { assert RotationParts(v, q).ids == ids; }
    RotationOfParts(w, r);
    RotationOfParts(v, q);
  }

  lemma FromRotationParts(w: string, r: Rotation, g: Fields) returns (v: string, q: Rotation)
    requires g.pre == RotationParts(w, r).pre && g.post == [] && |g.ids| == 3 && |g.mid| == 2
    requires WholeText(g.mid[0]) && WholeText(g.mid[1])
    ensures RotationParts(v, q) == g
  {
    var expires := NumberOf(g.mid[0]);
    var issued := NumberOf(g.mid[1]);
    v, q := g.ids[0], Rotation(g.ids[1], g.ids[2], expires, issued, g.key);
    assert RotationParts(v, q).ids == g.ids && RotationParts(v, q).mid == g.mid;
  }

  lemma NonceSharesText(w: string, r: Rotation, j: nat) returns (v: string, q: Rotation)
    requires 1 <= j < |Split(r.nonce, '\n')|
    requires var t := Tail(RotationParts(w, r), '\n'); WholeText(t[j]) && WholeText(t[j + 1])
    ensures SharesRotation(w, r, v, q)
  {
    var g, t := Shifted(RotationParts(w, r), j, '\n'), Tail(RotationParts(w, r), '\n');
    assert g.mid[0] == t[j] && g.mid[1] == t[j + 1];
    v, q := FromRotationParts(w, r, g);
    ShiftSharesText(RotationParts(w, r), j, '\n');
    RotationOfParts(w, r);
    RotationOfParts(v, q);
  }

  lemma RotationSharedOnlyIf(w: string, r: Rotation, v: string, q: Rotation)
    requires SharesRotation(w, r, v, q) && !NewlineInIds(w, r)
    ensures NonceReadsAsTimes(w, r)
  {
    RotationOfParts(w, r);
    RotationOfParts(v, q);
    SameTextIs(RotationParts(w, r), RotationParts(v, q), '\n');
    if RotationParts(w, r) == RotationParts(v, q) { SameRotation(w, r, v, q); } else {
      var j: nat :| Shift(RotationParts(w, r), RotationParts(v, q).mid, j, '\n');
      ShiftAt(RotationParts(w, r), RotationParts(v, q).mid, j, 0, '\n');
      ShiftAt(RotationParts(w, r), RotationParts(v, q).mid, j, 1, '\n');
      WholeTextIff(RotationParts(v, q).mid[0]);
      WholeTextIff(RotationParts(v, q).mid[1]);
    }
  }

  lemma SameRotation(w: string, r: Rotation, v: string, q: Rotation)
    requires RotationParts(w, r) == RotationParts(v, q)
    ensures w == v && r == q
  {
    var f, g := RotationParts(w, r), RotationParts(v, q);
    assert f.ids[0] == g.ids[0] && f.ids[1] == g.ids[1] && f.ids[2] == g.ids[2];
    assert f.mid[0] == g.mid[0] && f.mid[1] == g.mid[1];
    PrintIntInjective(r.tokenExpiresAt, q.tokenExpiresAt, 10);
    PrintIntInjective(r.issuedAt, q.issuedAt, 10);
  }

  /** Exactly which rotations share their text with another request or workspace. */
  lemma RotationSharedIff(w: string, r: Rotation)
    ensures (exists v, q :: SharesRotation(w, r, v, q)) <==> NewlineInIds(w, r) || NonceReadsAsTimes(w, r)
  {
    if NewlineInIds(w, r) {
      var v, q := NewlinesShareText(w, r);
    } else if NonceReadsAsTimes(w, r) {
      var t := Tail(RotationParts(w, r), '\n');
      var j: nat :| 1 <= j < |Split(r.nonce, '\n')| && WholeText(t[j]) && WholeText(t[j + 1]);
      var v, q := NonceSharesText(w, r, j);
    }
    forall v, q | SharesRotation(w, r, v, q) ensures NewlineInIds(w, r) || NonceReadsAsTimes(w, r) {
      if !NewlineInIds(w, r) { RotationSharedOnlyIf(w, r, v, q); }
    }
  }

  lemma {:induction false} JoinStarts(parts: seq<string>, sep: char)
    requires |parts| > 0 && parts[0] != ""
    ensures Join(parts, sep) != "" && Join(parts, sep)[0] == parts[0][0]
  {
    var n := |parts| - 1;
    if n > 0 { JoinStarts(parts[..n], sep); }
  }

  /** No signature on an envelope is one on a rotation: the first begins with a number, the second with a letter. */
  lemma NeverConfused(e: Unsigned, workspaceId: string, r: Rotation)
    ensures CanonicalText(e) != RotationText(workspaceId, r)
  {
    var v := PrintInt(e.version, 10);
    assert v[0] != 's' by { if e.version >= 0 { assert IsDigit(v[0], 10); } }
    JoinStarts(Head(e), '|');
    JoinStarts(RotationFields(workspaceId, r), '\n');
  }
}
