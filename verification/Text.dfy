/** Text built from fields: joining and splitting on a separator, and numbers printed in a base. */
module Text {
  // ------------------------------------------------------------ join and split

  function Join(parts: seq<string>, sep: char): string {
    if |parts| == 0 then ""
    else if |parts| == 1 then parts[0]
    else Join(parts[..|parts| - 1], sep) + [sep] + parts[|parts| - 1]
  }

  /** The fields between separators; there is always at least one. */
  function Split(s: string, sep: char): (parts: seq<string>)
    ensures |parts| > 0
  {
    if s == "" then [""]
    else
      var before := Split(s[..|s| - 1], sep);
      var c := s[|s| - 1];
      if c == sep then before + [""] else before[|before| - 1 := before[|before| - 1] + [c]]
  }

  predicate Free(s: string, c: char) { forall i :: 0 <= i < |s| ==> s[i] != c }

  predicate AllFree(parts: seq<string>, c: char) { forall i :: 0 <= i < |parts| ==> Free(parts[i], c) }

  lemma {:induction false} SplitAppend(s: string, sep: char, field: string)
    requires Free(field, sep)
    ensures Split(s + field, sep) == var p := Split(s, sep); p[|p| - 1 := p[|p| - 1] + field]
  {
    var p := Split(s, sep);
    if field == "" {
      assert s + field == s && p[|p| - 1] + field == p[|p| - 1];
    } else {
      var init, c := field[..|field| - 1], field[|field| - 1];
      SplitAppend(s, sep, init);
      var t := s + field;
      assert t[..|t| - 1] == s + init && t[|t| - 1] == c;
      assert p[|p| - 1] + field == p[|p| - 1] + init + [c];
    }
  }

  lemma SplitField(s: string, sep: char, field: string)
    requires Free(field, sep)
    ensures Split(s + [sep] + field, sep) == Split(s, sep) + [field]
  {
    var t := s + [sep];
    assert t[..|t| - 1] == s && t[|t| - 1] == sep;
    var p := Split(s, sep);
    assert Split(t, sep) == p + [""];
    SplitAppend(t, sep, field);
    assert "" + field == field;
    assert (p + [""])[|p| := field] == p + [field];
  }

  /** Fields without the separator come back from the joined text. */
  lemma {:induction false} SplitUndoesJoin(parts: seq<string>, sep: char)
    requires |parts| > 0 && AllFree(parts, sep)
    ensures Split(Join(parts, sep), sep) == parts
  {
    var n := |parts| - 1;
    assert Free(parts[n], sep);
    if n == 0 {
      SplitOne(parts[0], sep);
      assert parts == [parts[0]];
    } else {
      SplitUndoesJoin(parts[..n], sep);
      SplitField(Join(parts[..n], sep), sep, parts[n]);
      assert parts[..n] + [parts[n]] == parts;
    }
  }

  lemma JoinMore(parts: seq<string>, sep: char, last: string)
    requires |parts| > 0
    ensures Join(parts + [last], sep) == Join(parts, sep) + [sep] + last
  {
    assert (parts + [last])[..|parts|] == parts;
  }

  /** And joining the parts of a text gives it back. */
  lemma {:induction false} JoinUndoesSplit(s: string, sep: char)
    ensures Join(Split(s, sep), sep) == s
  {
    if s != "" {
      var init, last := s[..|s| - 1], s[|s| - 1];
      var before, parts := Split(init, sep), Split(s, sep);
      JoinUndoesSplit(init, sep);
      assert s == init + [last];
      if last == sep {
        assert parts == before + [""] && parts[..|parts| - 1] == before;
      } else {
        JoinLonger(before, parts, sep, last);
      }
    }
  }

  lemma JoinLonger(before: seq<string>, parts: seq<string>, sep: char, c: char)
    requires |before| > 0 && parts == before[|before| - 1 := before[|before| - 1] + [c]]
    ensures Join(parts, sep) == Join(before, sep) + [c]
  {
    assert parts[..|parts| - 1] == before[..|before| - 1];
  }

  lemma SplitOne(field: string, sep: char)
    requires Free(field, sep)
    ensures Split(field, sep) == [field]
  {
    SplitAppend("", sep, field);
    assert "" + field == field && [""][0 := field] == [field];
  }

  lemma JoinInjective(a: seq<string>, b: seq<string>, sep: char)
    requires |a| > 0 && |b| > 0 && AllFree(a, sep) && AllFree(b, sep)
    ensures Join(a, sep) == Join(b, sep) <==> a == b
  {
    SplitUndoesJoin(a, sep);
    SplitUndoesJoin(b, sep);
  }

  /** A separator inside a field makes more fields. */
  function Occurrences(s: string, c: char): nat {
    if s == "" then 0 else Occurrences(s[..|s| - 1], c) + (if s[|s| - 1] == c then 1 else 0)
  }

  lemma {:induction false} SplitCount(s: string, sep: char)
    ensures |Split(s, sep)| == Occurrences(s, sep) + 1
  {
    if s != "" { SplitCount(s[..|s| - 1], sep); }
  }

  lemma {:induction false} OccurrencesAppend(a: string, b: string, c: char)
    ensures Occurrences(a + b, c) == Occurrences(a, c) + Occurrences(b, c)
  {
    if b == "" {
      assert a + b == a;
    } else {
      OccurrencesAppend(a, b[..|b| - 1], c);
      var t := a + b;
      assert t[..|t| - 1] == a + b[..|b| - 1] && t[|t| - 1] == b[|b| - 1];
    }
  }

  lemma {:induction false} FreeIff(s: string, c: char)
    ensures Free(s, c) <==> Occurrences(s, c) == 0
  {
    if s != "" {
      FreeIff(s[..|s| - 1], c);
      assert Free(s, c) <==> Free(s[..|s| - 1], c) && s[|s| - 1] != c by {
        if Free(s[..|s| - 1], c) && s[|s| - 1] != c {
          forall i | 0 <= i < |s| ensures s[i] != c { if i < |s| - 1 { assert s[..|s| - 1][i] != c; } }
        }
      }
    }
  }

  function OccurrencesIn(parts: seq<string>, c: char): nat {
    if parts == [] then 0 else OccurrencesIn(parts[..|parts| - 1], c) + Occurrences(parts[|parts| - 1], c)
  }

  lemma {:induction false} JoinOccurrences(parts: seq<string>, sep: char)
    requires |parts| > 0
    ensures Occurrences(Join(parts, sep), sep) == |parts| - 1 + OccurrencesIn(parts, sep)
  {
    var n := |parts| - 1;
    if n == 0 {
      assert OccurrencesIn(parts[..0], sep) == 0;
    } else {
      JoinOccurrences(parts[..n], sep);
      OccurrencesAppend(Join(parts[..n], sep) + [sep], parts[n], sep);
      OccurrencesAppend(Join(parts[..n], sep), [sep], sep);
      assert Occurrences([sep], sep) == 1 by { assert [sep][..0] == ""; }
    }
  }

  lemma {:induction false} AllFreeIff(parts: seq<string>, c: char)
    ensures AllFree(parts, c) <==> OccurrencesIn(parts, c) == 0
  {
    if parts != [] {
      var n := |parts| - 1;
      AllFreeIff(parts[..n], c);
      FreeIff(parts[n], c);
      assert AllFree(parts, c) <==> AllFree(parts[..n], c) && Free(parts[n], c) by {
        if AllFree(parts[..n], c) && Free(parts[n], c) {
          forall i | 0 <= i < |parts| ensures Free(parts[i], c) { if i < n { assert Free(parts[..n][i], c); } }
        }
        if AllFree(parts, c) { forall i | 0 <= i < n ensures Free(parts[..n][i], c) { assert Free(parts[i], c); } }
      }
    }
  }

  /** Split gives back the number of fields exactly when none of them holds the separator. */
  lemma SplitCountIff(parts: seq<string>, sep: char)
    requires |parts| > 0
    ensures |Split(Join(parts, sep), sep)| == |parts| <==> AllFree(parts, sep)
    ensures |Split(Join(parts, sep), sep)| >= |parts|
  {
    SplitCount(Join(parts, sep), sep);
    JoinOccurrences(parts, sep);
    AllFreeIff(parts, sep);
  }

  // ------------------------------------------------------------ numbers in a base

  type Base = b: nat | 2 <= b <= 36 witness 10

  function DigitChar(d: nat): (c: char)
    requires d < 36
    ensures IsAlnum(c) && DigitValue(c) == d
  {
    if d < 10 then '0' + d as char else 'a' + (d - 10) as char
  }

  predicate IsAlnum(c: char) { '0' <= c <= '9' || 'a' <= c <= 'z' || 'A' <= c <= 'Z' }

  function DigitValue(c: char): (d: nat)
    requires IsAlnum(c)
    ensures d < 36
  {
    if '0' <= c <= '9' then (c - '0') as nat
    else if 'a' <= c <= 'z' then (c - 'a') as nat + 10
    else (c - 'A') as nat + 10
  }

  /** The digits of a text are the usual ones. */
  lemma DigitIs(d: nat)
    requires d < 36
    ensures DigitChar(d) == "0123456789abcdefghijklmnopqrstuvwxyz"[d]
  {
  }

  predicate IsDigit(c: char, base: Base) { IsAlnum(c) && DigitValue(c) < base }

  predicate AllDigits(s: string, base: Base) { forall i :: 0 <= i < |s| ==> IsDigit(s[i], base) }

  /** How often the base goes into n, and what is left over. */
  function Divide(n: nat, base: Base): (d: (nat, nat))
    ensures d.1 < base && d.0 * base + d.1 == n && (base <= n ==> d.0 < n)
  {
    if n < base then (0, n) else (Divide(n - base, base).0 + 1, Divide(n - base, base).1)
  }

  /** Number.prototype.toString(base), for a whole number that is not negative. */
  function Print(n: nat, base: Base): (s: string)
    ensures |s| > 0 && AllDigits(s, base)
    decreases n
  {
    if n < base then [DigitChar(n)] else Print(Divide(n, base).0, base) + [DigitChar(Divide(n, base).1)]
  }

  function ValueOf(s: string, base: Base): nat
    requires AllDigits(s, base)
  {
    if s == "" then 0 else ValueOf(s[..|s| - 1], base) * base + DigitValue(s[|s| - 1])
  }

  lemma {:induction false} ValueOfPrint(n: nat, base: Base)
    ensures ValueOf(Print(n, base), base) == n
    decreases n
  {
    if n < base {
      OneDigitValue(n, base);
    } else {
      var (q, d) := Divide(n, base);
      ValueOfPrint(q, base);
      OneMoreDigit(Print(q, base), DigitChar(d), base);
    }
  }

  lemma OneDigitValue(n: nat, base: Base)
    requires n < base
    ensures ValueOf([DigitChar(n)], base) == n
  {
    OneMoreDigit("", DigitChar(n), base);
    assert "" + [DigitChar(n)] == [DigitChar(n)];
  }

  lemma OneMoreDigit(s: string, c: char, base: Base)
    requires AllDigits(s, base) && IsDigit(c, base)
    ensures AllDigits(s + [c], base) && ValueOf(s + [c], base) == ValueOf(s, base) * base + DigitValue(c)
  {
    assert (s + [c])[..|s|] == s;
  }

  lemma PrintInjective(a: nat, b: nat, base: Base)
    ensures Print(a, base) == Print(b, base) <==> a == b
  {
    ValueOfPrint(a, base);
    ValueOfPrint(b, base);
  }

  /** toString(base) of any whole number. */
  function PrintInt(n: int, base: Base): string { if n < 0 then "-" + Print(-n, base) else Print(n, base) }

  lemma PrintIntInjective(a: int, b: int, base: Base)
    ensures PrintInt(a, base) == PrintInt(b, base) <==> a == b
  {
    PrintInjective(if a < 0 then -a else a, if b < 0 then -b else b, base);
    NoSign(if a < 0 then -a else a, base);
    NoSign(if b < 0 then -b else b, base);
    if a < 0 && b < 0 { assert PrintInt(a, base)[1..] == Print(-a, base) && PrintInt(b, base)[1..] == Print(-b, base); }
  }

  lemma NoSign(n: nat, base: Base)
    ensures Print(n, base)[0] != '-'
  {
    assert IsDigit(Print(n, base)[0], base);
  }

  // ------------------------------------------------------------ which texts are printed numbers

  /** Decimal digits without a leading zero. */
  predicate PositiveText(t: string) { t != "" && t[0] != '0' && forall i :: 0 <= i < |t| ==> '0' <= t[i] <= '9' }

  predicate WholeText(t: string) { t == "0" || PositiveText(t) || (t != "" && t[0] == '-' && PositiveText(t[1..])) }

  lemma {:induction false} PrintIsPositive(n: nat)
    requires n > 0
    ensures PositiveText(Print(n, 10))
    decreases n
  {
    if n >= 10 {
      PrintIsPositive(Divide(n, 10).0);
      assert Print(n, 10) == Print(Divide(n, 10).0, 10) + [DigitChar(Divide(n, 10).1)];
    }
  }

  lemma PrintOneMore(q: nat, c: char)
    requires q > 0 && '0' <= c <= '9'
    ensures Print(q * 10 + DigitValue(c), 10) == Print(q, 10) + [c]
  {
    DivideBack(q, DigitValue(c));
    assert DigitChar(DigitValue(c)) == c;
  }

  lemma {:induction false} PrintOfPositive(t: string)
    requires PositiveText(t)
    ensures AllDigits(t, 10) && ValueOf(t, 10) > 0 && Print(ValueOf(t, 10), 10) == t
  {
    var n := |t| - 1;
    assert t == t[..n] + [t[n]];
    if n == 0 {
      assert ValueOf(t, 10) == DigitValue(t[0]) && DigitChar(DigitValue(t[0])) == t[0];
    } else {
      PrintOfPositive(t[..n]);
      OneMoreDigit(t[..n], t[n], 10);
      PrintOneMore(ValueOf(t[..n], 10), t[n]);
    }
  }

  lemma {:induction false} DivideBack(q: nat, d: nat)
    requires d < 10
    ensures Divide(q * 10 + d, 10) == (q, d)
  {
    if q > 0 { DivideBack(q - 1, d); }
  }

  /** The texts toString prints for whole numbers. */
  lemma WholeTextIff(t: string)
    ensures WholeText(t) <==> exists n: int :: PrintInt(n, 10) == t
  {
    if t == "0" {
      assert PrintInt(0, 10) == t;
    } else if PositiveText(t) {
      PrintOfPositive(t);
      assert PrintInt(ValueOf(t, 10), 10) == t;
    } else if WholeText(t) {
      PrintOfPositive(t[1..]);
      var n: int := ValueOf(t[1..], 10);
      assert PrintInt(-n, 10) == t;
    }
    forall n: int | PrintInt(n, 10) == t ensures WholeText(t) {
      if n > 0 { PrintIsPositive(n); }
      if n < 0 { PrintIsPositive(-n); assert t[1..] == Print(-n, 10); }
    }
  }
}
