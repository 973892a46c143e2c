/** Text the modules build credentials, fingerprints and cursors from: decimal numbers,
    separators and joins. Each lemma says when such a text can be read back. */
module Text {

  function DigitChar(d: nat): char
    requires d < 10
  {
    "0123456789"[d]
  }

  predicate IsDigit(c: char) {
    '0' <= c <= '9'
  }

  /** `str(n)` and `b"%d" % n` for a natural number. */
  function Decimal(n: nat): (s: string)
    ensures s != "" && forall c | c in s :: IsDigit(c)
  {
    if n < 10 then [DigitChar(n)] else Decimal(n / 10) + [DigitChar(n % 10)]
  }

  function DigitValue(c: char): (d: nat)
    requires IsDigit(c)
  {
    c as int - '0' as int
  }

  /** The number a text of digits denotes. */
  function DecimalValue(s: string): nat
    requires forall c | c in s :: IsDigit(c)
  {
    if s == "" then 0
    else 10 * DecimalValue(s[..|s| - 1]) + DigitValue(s[|s| - 1])
  }

  lemma {:induction false} DecimalRoundTrip(n: nat)
    ensures DecimalValue(Decimal(n)) == n
  {
    var s := Decimal(n);
    if n >= 10 {
      DecimalRoundTrip(n / 10);
      assert s[..|s| - 1] == Decimal(n / 10);
    } else {
      assert s[..|s| - 1] == "";
    }
  }

  lemma DecimalInjective(a: nat, b: nat)
    requires Decimal(a) == Decimal(b)
    ensures a == b
  {
    DecimalRoundTrip(a);
    DecimalRoundTrip(b);
  }

  /** A text is cut in one way only at its first separator ... */
  lemma SplitAtFirst(a: string, b: string, c: string, d: string, sep: char)
    requires a + [sep] + b == c + [sep] + d
    requires sep !in a && sep !in c
    ensures a == c && b == d
  {
    var whole := a + [sep] + b;
    assert whole[|a|] == sep && whole[|c|] == sep;
    assert forall k | 0 <= k < |a| :: whole[k] == a[k];
    assert forall k | 0 <= k < |c| :: whole[k] == c[k];
    assert |a| == |c|;
    assert a == whole[..|a|] && c == whole[..|c|];
    assert b == whole[|a| + 1..] && d == whole[|c| + 1..];
  }

  /** ... and at its last one. */
  lemma SplitAtLast(a: string, b: string, c: string, d: string, sep: char)
    requires a + [sep] + b == c + [sep] + d
    requires sep !in b && sep !in d
    ensures a == c && b == d
  {
    var whole := a + [sep] + b;
    assert whole[|a|] == sep && whole[|c|] == sep;
    assert forall k | |a| < k < |whole| :: whole[k] == b[k - |a| - 1];
    assert forall k | |c| < k < |whole| :: whole[k] == d[k - |c| - 1];
    assert |a| == |c|;
    assert a == whole[..|a|] && c == whole[..|c|];
    assert b == whole[|a| + 1..] && d == whole[|c| + 1..];
  }

  /** `sep.join(parts)` */
  function Join(parts: seq<string>, sep: char): string {
    if parts == [] then ""
    else if |parts| == 1 then parts[0]
    else parts[0] + [sep] + Join(parts[1..], sep)
  }

  function LowerChar(c: char): char {
    if 'A' <= c <= 'Z' then (c as int + 32) as char else c
  }

  /** `str.lower()` on ASCII text: how addresses are compared. */
  function Lower(s: string): string {
    seq(|s|, i requires 0 <= i < |s| => LowerChar(s[i]))
  }

  /** The same letter, whatever its case. */
  predicate SameLetter(c: char, d: char) {
    || c == d
    || ('A' <= c <= 'Z' && d as int == c as int + 32)
    || ('A' <= d <= 'Z' && c as int == d as int + 32)
  }

  /** One mailbox: the same letters in the same places. */
  predicate SameMailbox(a: string, b: string) {
    |a| == |b| && forall i | 0 <= i < |a| :: SameLetter(a[i], b[i])
  }

  lemma LowerCharExactly(c: char, d: char)
    ensures LowerChar(c) == LowerChar(d) <==> SameLetter(c, d)
  {
  }

  /** What comparing in lower case tells apart: everything but the case of ASCII letters. */
  lemma LowerExactly(a: string, b: string)
    ensures Lower(a) == Lower(b) <==> SameMailbox(a, b)
  {
    assert |Lower(a)| == |a| && |Lower(b)| == |b|;
    if |a| == |b| {
      forall i | 0 <= i < |a| ensures Lower(a)[i] == Lower(b)[i] <==> SameLetter(a[i], b[i]) {
        LowerCharExactly(a[i], b[i]);
      }
    }
  }

  /** The characters `str.strip()` drops (the ASCII ones). */
  predicate IsSpace(c: char) {
    c == ' ' || '\t' <= c <= '\r' || 28 as char <= c <= 31 as char
  }

  function Strip(s: string): (r: string)
    ensures r == "" || (!IsSpace(r[0]) && !IsSpace(r[|r| - 1]))
    ensures |r| <= |s|
  {
    if s == "" then ""
    else if IsSpace(s[0]) then Strip(s[1..])
    else if IsSpace(s[|s| - 1]) then Strip(s[..|s| - 1])
    else s
  }

  /** A text that begins and ends with something else has nothing to strip. */
  lemma StrippedStays(s: string)
    requires s == "" || (!IsSpace(s[0]) && !IsSpace(s[|s| - 1]))
    ensures Strip(s) == s
  {
  }

  /** Only space goes, and only at the ends. */
  lemma {:induction false} StripDropsOnlySpace(s: string) returns (before: string, after: string)
    ensures s == before + Strip(s) + after
    ensures forall c | c in before + after :: IsSpace(c)
  {
    if s == "" {
      before, after := "", "";
    } else if IsSpace(s[0]) {
      before, after := StripDropsOnlySpace(s[1..]);
      assert s == [s[0]] + s[1..];
      before := [s[0]] + before;
    } else if IsSpace(s[|s| - 1]) {
      before, after := StripDropsOnlySpace(s[..|s| - 1]);
      assert s == s[..|s| - 1] + [s[|s| - 1]];
      after := after + [s[|s| - 1]];
    } else {
      before, after := "", "";
    }
  }

  /** `text.split(sep)` */
  function Split(text: string, sep: char): (parts: seq<string>)
    ensures parts != []
  {
    if text == "" then [""]
    else
      var rest := Split(text[1..], sep);
      if text[0] == sep then [""] + rest else [[text[0]] + rest[0]] + rest[1..]
  }

  lemma {:induction false} SplitOfPart(part: string, sep: char)
    requires sep !in part
    ensures Split(part, sep) == [part]
  {
    if part != "" {
      assert part == [part[0]] + part[1..];
      SplitOfPart(part[1..], sep);
    }
  }

  lemma {:induction false} SplitAfterPart(part: string, sep: char, text: string)
    requires sep !in part
    ensures Split(part + [sep] + text, sep) == [part] + Split(text, sep)
  {
    var whole := part + [sep] + text;
    if part == "" {
      assert whole[1..] == text;
    } else {
      assert whole[1..] == part[1..] + [sep] + text;
      assert part == [part[0]] + part[1..];
      SplitAfterPart(part[1..], sep, text);
    }
  }

  /** What was joined from lines splits back into those lines. */
  lemma {:induction false} JoinThenSplit(parts: seq<string>, sep: char)
    requires parts != [] && forall p | p in parts :: sep !in p
    ensures Split(Join(parts, sep), sep) == parts
  {
    if |parts| == 1 {
      SplitOfPart(parts[0], sep);
      assert parts == [parts[0]];
    } else {
      assert parts[1..] != [] && forall p | p in parts[1..] :: p in parts;
      JoinThenSplit(parts[1..], sep);
      SplitAfterPart(parts[0], sep, Join(parts[1..], sep));
    }
  }
}
