/** Text primitives shared by the whole model: Python's ordering on `str`,
    `join`, `split()` on whitespace, `split(sep, 1)`, `startswith`, `strip`,
    and decimal rendering and parsing of integers (`str(n)` and `int(s)`). */
module Text {

  datatype Option<+T> = None | Some(value: T)

  /** Python's `str.isspace()` on one character: the characters `split()`
      and `strip()` treat as whitespace (tab to carriage return, the four
      information separators 0x1C-0x1F, space, NEL, no-break space, and the
      Unicode space and line/paragraph separators). */
  predicate IsSpace(c: char) {
    || c == ' ' || ('\t' <= c <= '\r') || ('\U{1c}' <= c <= '\U{1f}')
    || c == '\U{85}' || c == '\U{a0}' || c == '\U{1680}' || ('\U{2000}' <= c <= '\U{200a}')
    || c == '\U{2028}' || c == '\U{2029}' || c == '\U{202f}' || c == '\U{205f}' || c == '\U{3000}'
  }

  predicate NoSpace(s: string) {
    forall i :: 0 <= i < |s| ==> !IsSpace(s[i])
  }

  /** A token as produced by `split()`: non-empty and free of whitespace. */
  predicate IsToken(s: string) {
    |s| > 0 && NoSpace(s)
  }

  predicate NoChar(s: string, c: char) {
    forall i :: 0 <= i < |s| ==> s[i] != c
  }

  // ---------------------------------------------------------------------------
  // Python's `<` on str: lexicographic by code point, a proper prefix is smaller.
  // (Dafny's own `<` on sequences means "proper prefix" and is not used here.)
  // ---------------------------------------------------------------------------

  predicate LexLess(a: string, b: string)
    decreases |a|
  {
    if |a| == 0 then |b| > 0
    else if |b| == 0 then false
    else a[0] < b[0] || (a[0] == b[0] && LexLess(a[1..], b[1..]))
  }

  predicate LexLessEq(a: string, b: string) {
    a == b || LexLess(a, b)
  }

  lemma {:induction false} LexIrreflexive(a: string)
    ensures !LexLess(a, a)
  {
    if |a| > 0 {
      LexIrreflexive(a[1..]);
    }
  }

  lemma {:induction false} LexTrichotomy(a: string, b: string)
    ensures a == b || LexLess(a, b) || LexLess(b, a)
    decreases |a|
  {
    if |a| > 0 && |b| > 0 && a[0] == b[0] {
      LexTrichotomy(a[1..], b[1..]);
      if a[1..] == b[1..] {
        assert a == [a[0]] + a[1..] && b == [b[0]] + b[1..];
      }
    }
  }

  lemma {:induction false} LexAsymmetric(a: string, b: string)
    ensures LexLess(a, b) ==> !LexLess(b, a)
    decreases |a|
  {
    if |a| > 0 && |b| > 0 && a[0] == b[0] {
      LexAsymmetric(a[1..], b[1..]);
    }
  }

  lemma {:induction false} LexTransitive(a: string, b: string, c: string)
    requires LexLess(a, b) && LexLess(b, c)
    ensures LexLess(a, c)
    decreases |a|
  {
    if |a| > 0 && a[0] == b[0] && b[0] == c[0] {
      LexTransitive(a[1..], b[1..], c[1..]);
    }
  }

  /** Python's `min(a, b)`: the first argument unless the second is strictly smaller. */
  function MinStr(a: string, b: string): string {
    if LexLess(b, a) then b else a
  }

  lemma MinStrCommutes(a: string, b: string)
    ensures MinStr(a, b) == MinStr(b, a)
  {
    LexTrichotomy(a, b);
    LexAsymmetric(a, b);
  }

  lemma MinStrIsLeast(a: string, b: string)
    ensures MinStr(a, b) == a || MinStr(a, b) == b
    ensures LexLessEq(MinStr(a, b), a) && LexLessEq(MinStr(a, b), b)
  {
    LexTrichotomy(a, b);
  }

  // ---------------------------------------------------------------------------
  // Joining and splitting
  // ---------------------------------------------------------------------------

  /** `sep.join(parts)` */
  function Join(parts: seq<string>, sep: string): string
  {
    if |parts| == 0 then ""
    else if |parts| == 1 then parts[0]
    else parts[0] + sep + Join(parts[1..], sep)
  }

  /** `"".join(parts)` */
  function Concat(parts: seq<string>): string {
    Join(parts, "")
  }

  lemma {:induction false} JoinSnoc(parts: seq<string>, x: string, sep: string)
    ensures Join(parts + [x], sep) == if |parts| == 0 then x else Join(parts, sep) + sep + x
  {
    if |parts| > 1 {
      assert (parts + [x])[1..] == parts[1..] + [x];
      JoinSnoc(parts[1..], x, sep);
    }
  }

  lemma ConcatCons(x: string, rest: seq<string>)
    ensures Concat([x] + rest) == x + Concat(rest)
  {
    if |rest| == 0 {
      assert [x] + rest == [x];
      assert x + "" == x;
    } else {
      assert ([x] + rest)[1..] == rest;
    }
  }

  lemma {:induction false} ConcatAppend(a: seq<string>, b: seq<string>)
    ensures Concat(a + b) == Concat(a) + Concat(b)
  {
    if |a| == 0 {
      assert a + b == b;
    } else if |a| == 1 {
      if |b| > 0 {
        assert (a + b)[1..] == b;
      }
    } else {
      assert (a + b)[1..] == a[1..] + b;
      ConcatAppend(a[1..], b);
    }
  }

  /** Length of the leading run of non-whitespace characters. */
  function WordEnd(s: string): (n: nat)
    ensures n <= |s|
    ensures forall i :: 0 <= i < n ==> !IsSpace(s[i])
    ensures n < |s| ==> IsSpace(s[n])
  {
    if |s| == 0 || IsSpace(s[0]) then 0 else 1 + WordEnd(s[1..])
  }

  /** Python's `s.split()`: the maximal runs of non-whitespace characters. */
  function Words(s: string): seq<string>
    decreases |s|
  {
    if |s| == 0 then []
    else if IsSpace(s[0]) then Words(s[1..])
    else
      var n := WordEnd(s);
      [s[..n]] + Words(s[n..])
  }

  lemma {:induction false} WordsOfToken(t: string)
    requires NoSpace(t)
    ensures Words(t) == if |t| == 0 then [] else [t]
  {
    if |t| > 0 {
      WordEndOfNoSpace(t);
      assert t[..|t|] == t && t[|t|..] == [];
    }
  }

  lemma {:induction false} WordEndOfNoSpace(t: string)
    requires NoSpace(t)
    ensures WordEnd(t) == |t|
  {
    if |t| > 0 {
      WordEndOfNoSpace(t[1..]);
    }
  }

  lemma WordsSpaceHead(s: string)
    requires |s| > 0 && IsSpace(s[0])
    ensures Words(s) == Words(s[1..])
  {
  }

  lemma WordsWordHead(s: string)
    requires |s| > 0 && !IsSpace(s[0])
    ensures Words(s) == [s[..WordEnd(s)]] + Words(s[WordEnd(s)..])
  {
  }

  /** A single space separates words. */
  lemma {:induction false} WordsAroundSpace(x: string, y: string)
    ensures Words(x + " " + y) == Words(x) + Words(y)
    decreases |x|, 1
  {
    if |x| == 0 {
      var s := x + " " + y;
      assert s[0] == ' ' && s[1..] == y;
      WordsSpaceHead(s);
    } else if IsSpace(x[0]) {
      AroundSpaceSkip(x, y);
    } else {
      AroundSpaceWord(x, y);
    }
  }

  lemma {:induction false} AroundSpaceSkip(x: string, y: string)
    requires |x| > 0 && IsSpace(x[0])
    ensures Words(x + " " + y) == Words(x) + Words(y)
    decreases |x|, 0
  {
    var s := x + " " + y;
    assert s[0] == x[0] && s[1..] == x[1..] + " " + y;
    WordsSpaceHead(s);
    WordsSpaceHead(x);
    WordsAroundSpace(x[1..], y);
  }

  lemma {:induction false} AroundSpaceWord(x: string, y: string)
    requires |x| > 0 && !IsSpace(x[0])
    ensures Words(x + " " + y) == Words(x) + Words(y)
    decreases |x|, 0
  {
    var s := x + " " + y;
    var n := WordEnd(x);
    WordEndPrefix(x, " " + y);
    assert s[0] == x[0];
    assert s == x + (" " + y);
    assert s[..n] == x[..n];
    assert s[n..] == x[n..] + " " + y;
    WordsWordHead(s);
    WordsWordHead(x);
    WordsAroundSpace(x[n..], y);
  }

  lemma {:induction false} WordEndPrefix(x: string, z: string)
    requires |z| > 0 && IsSpace(z[0])
    ensures WordEnd(x + z) == WordEnd(x)
  {
    if |x| > 0 && !IsSpace(x[0]) {
      assert (x + z)[1..] == x[1..] + z;
      WordEndPrefix(x[1..], z);
    }
  }

  /** Splitting a space-joined list of tokens gives the tokens back. */
  lemma {:induction false} WordsOfJoin(ts: seq<string>)
    requires forall i :: 0 <= i < |ts| ==> IsToken(ts[i])
    ensures Words(Join(ts, " ")) == ts
  {
    if |ts| == 1 {
      WordsOfToken(ts[0]);
    } else if |ts| > 1 {
      WordsOfToken(ts[0]);
      WordsAroundSpace(ts[0], Join(ts[1..], " "));
      WordsOfJoin(ts[1..]);
    }
  }

  /** `s.replace(a, b)` for single characters. */
  function ReplaceChar(s: string, a: char, b: char): (r: string)
    ensures |r| == |s|
    ensures forall i :: 0 <= i < |s| ==> r[i] == if s[i] == a then b else s[i]
  {
    if |s| == 0 then [] else [if s[0] == a then b else s[0]] + ReplaceChar(s[1..], a, b)
  }

  lemma ReplaceCharAppend(x: string, y: string, a: char, b: char)
    ensures ReplaceChar(x + y, a, b) == ReplaceChar(x, a, b) + ReplaceChar(y, a, b)
  {
  }

  /** A string without `a` is left alone by `ReplaceChar`. */
  lemma ReplaceCharAbsent(s: string, a: char, b: char)
    requires NoChar(s, a)
    ensures ReplaceChar(s, a, b) == s
  {
  }

  /** `(x + "-" + y + "-" + t).replace('-', ' ')` when x and y hold no dash. */
  lemma ReplaceAroundDashes(x: string, y: string, t: string)
    requires NoChar(x, '-') && NoChar(y, '-')
    ensures ReplaceChar(x + ("-" + y + "-" + t), '-', ' ') == x + " " + y + " " + ReplaceChar(t, '-', ' ')
  {
    var mid := "-" + y + "-";
    ReplaceDashed(y);
    calc {
      ReplaceChar(x + (mid + t), '-', ' ');
      { ReplaceCharAppend(x, mid + t, '-', ' '); }
      ReplaceChar(x, '-', ' ') + ReplaceChar(mid + t, '-', ' ');
      { ReplaceCharAbsent(x, '-', ' '); ReplaceCharAppend(mid, t, '-', ' '); }
      x + (" " + y + " " + ReplaceChar(t, '-', ' '));
    }
    assert x + (" " + y + " " + ReplaceChar(t, '-', ' ')) == x + " " + y + " " + ReplaceChar(t, '-', ' ');
  }

  lemma ReplaceDashed(y: string)
    requires NoChar(y, '-')
    ensures ReplaceChar("-" + y + "-", '-', ' ') == " " + y + " "
  {
    var r := ReplaceChar("-" + y + "-", '-', ' ');
    assert forall i :: 0 <= i < |r| ==> r[i] == (" " + y + " ")[i];
  }

  /** A token followed by a space comes off as the first word. */
  lemma WordsAfterToken(a: string, rest: string)
    requires IsToken(a)
    ensures Words(a + " " + rest) == [a] + Words(rest)
  {
    WordsAroundSpace(a, rest);
    WordsOfToken(a);
  }

  /** Joining two leading parts in front of a non-empty rest. */
  lemma JoinTwo(x: string, y: string, rest: seq<string>, sep: string)
    requires |rest| > 0
    ensures Join([x, y] + rest, sep) == x + sep + y + sep + Join(rest, sep)
  {
    JoinHead([x, y] + rest, sep);
    assert ([x, y] + rest)[1..] == [y] + rest;
    JoinHead([y] + rest, sep);
    assert ([y] + rest)[1..] == rest;
  }

  lemma JoinHead(parts: seq<string>, sep: string)
    requires |parts| > 1
    ensures Join(parts, sep) == parts[0] + sep + Join(parts[1..], sep)
  {
  }

  predicate StartsWith(s: string, prefix: string) {
    |prefix| <= |s| && s[..|prefix|] == prefix
  }

  predicate OccursAt(s: string, pat: string, i: nat) {
    i + |pat| <= |s| && s[i..i + |pat|] == pat
  }

  /** The first index at or after `from` where `pat` occurs (Python's `str.find`). */
  function FindFrom(s: string, pat: string, from: nat): (r: Option<nat>)
    requires |pat| > 0
    ensures r.Some? ==> from <= r.value && OccursAt(s, pat, r.value)
    ensures r.Some? ==> forall j :: from <= j < r.value ==> !OccursAt(s, pat, j)
    ensures r.None? ==> forall j :: from <= j ==> !OccursAt(s, pat, j)
    decreases |s| - from
  {
    if from + |pat| > |s| then None
    else if s[from..from + |pat|] == pat then Some(from)
    else FindFrom(s, pat, from + 1)
  }

  function Find(s: string, pat: string): Option<nat>
    requires |pat| > 0
  {
    FindFrom(s, pat, 0)
  }

  /** An occurrence with none before it is the one `find` reports. */
  lemma FindFirst(s: string, pat: string, p: nat)
    requires |pat| > 0 && OccursAt(s, pat, p)
    requires forall j :: 0 <= j < p ==> !OccursAt(s, pat, j)
    ensures Find(s, pat) == Some(p)
  {
  }

  /** The third part of `a + sep + b + sep + c` starts after both separators. */
  lemma ThirdPart(s: string, a: string, b: string, c: string, sep: string)
    requires s == a + sep + b + sep + c
    ensures s[|a| + |b| + 2 * |sep|..] == c
  {
    assert s == (a + sep + b + sep) + c;
  }

  /** A prefix of a suffix of `s` occurs in `s`. */
  lemma PrefixOfSuffix(s: string, at: nat, body: string)
    requires at <= |s| && StartsWith(s[at..], body)
    ensures OccursAt(s, body, at)
  {
    assert s[at..][..|body|] == s[at..at + |body|];
  }

  /** `strip` leaves a string alone that neither starts nor ends with whitespace. */
  lemma StripUnpadded(s: string)
    requires |s| > 0 && !IsSpace(s[0]) && !IsSpace(s[|s| - 1])
    ensures Strip(s) == s
  {
  }

  /** Python's `pat in s`. */
  predicate Contains(s: string, pat: string)
    requires |pat| > 0
  {
    Find(s, pat).Some?
  }

  /** Python's `s.split(sep, 1)`. */
  function SplitOnce(s: string, sep: string): (r: seq<string>)
    requires |sep| > 0
    ensures 1 <= |r| <= 2
    ensures |r| == 1 <==> !Contains(s, sep)
    ensures |r| == 1 ==> r[0] == s
    ensures |r| == 2 ==> s == r[0] + sep + r[1]
  {
    match Find(s, sep)
    case None => [s]
    case Some(k) =>
      assert s == s[..k] + s[k..k + |sep|] + s[k + |sep|..];
      [s[..k], s[k + |sep|..]]
  }

  /** Python's `s.split(sep, 2)`. */
  function SplitTwice(s: string, sep: string): (r: seq<string>)
    requires |sep| > 0
    ensures 1 <= |r| <= 3
    ensures |r| == 3 ==> s == r[0] + sep + r[1] + sep + r[2]
  {
    var first := SplitOnce(s, sep);
    if |first| == 1 then first else [first[0]] + SplitOnce(first[1], sep)
  }

  /** Python's `s.strip()`. */
  function Strip(s: string): (r: string)
    ensures |r| <= |s|
    decreases |s|
  {
    if |s| > 0 && IsSpace(s[0]) then Strip(s[1..])
    else if |s| > 0 && IsSpace(s[|s| - 1]) then Strip(s[..|s| - 1])
    else s
  }

  // ---------------------------------------------------------------------------
  // Integers: `str(n)` and `int(s)`
  // ---------------------------------------------------------------------------

  predicate IsDigit(c: char) {
    '0' <= c <= '9'
  }

  predicate AllDigits(s: string) {
    forall i :: 0 <= i < |s| ==> IsDigit(s[i])
  }

  function DigitChar(d: nat): (c: char)
    requires d < 10
    ensures IsDigit(c) && c as int - '0' as int == d
  {
    (d + '0' as int) as char
  }

  /** `str(n)` for a non-negative integer. */
  function NatToString(n: nat): (s: string)
    ensures |s| > 0 && AllDigits(s)
  {
    if n < 10 then [DigitChar(n)] else NatToString(n / 10) + [DigitChar(n % 10)]
  }

  /** `str(i)` */
  function IntToString(i: int): (s: string)
    ensures IsToken(s)
    ensures i >= 0 ==> AllDigits(s)
    ensures i < 0 ==> s[0] == '-' && AllDigits(s[1..])
  {
    if i < 0 then "-" + NatToString(-i) else NatToString(i)
  }

  function DigitsValue(s: string): nat
    requires AllDigits(s)
  {
    if |s| == 0 then 0 else DigitsValue(s[..|s| - 1]) * 10 + (s[|s| - 1] as int - '0' as int)
  }

  /** Python's `int(s)` on a token: an optional sign followed by decimal digits;
      `None` stands for the `ValueError` Python raises otherwise. */
  function ParseInt(s: string): Option<int> {
    if |s| > 0 && (s[0] == '-' || s[0] == '+') then
      if |s| > 1 && AllDigits(s[1..]) then
        Some(if s[0] == '-' then -(DigitsValue(s[1..]) as int) else DigitsValue(s[1..]))
      else None
    else if |s| > 0 && AllDigits(s) then Some(DigitsValue(s))
    else None
  }

  lemma {:induction false} DigitsValueOfNat(n: nat)
    ensures DigitsValue(NatToString(n)) == n
  {
    if n >= 10 {
      var s := NatToString(n);
      assert s[..|s| - 1] == NatToString(n / 10);
      DigitsValueOfNat(n / 10);
    }
  }

  /** `int(str(i)) == i` */
  lemma ParseIntOfIntToString(i: int)
    ensures ParseInt(IntToString(i)) == Some(i)
  {
    var s := IntToString(i);
    if i < 0 {
      var d := NatToString(-i);
      assert s == "-" + d;
      assert s[1..] == d;
      DigitsValueOfNat(-i);
      assert ParseInt(s) == Some(-(DigitsValue(d) as int));
    } else {
      assert IsDigit(s[0]);
      DigitsValueOfNat(i);
      assert ParseInt(s) == Some(DigitsValue(s));
    }
  }

  /** A non-empty sequence is its front followed by its last element. */
  lemma LastSplit<T>(s: seq<T>)
    requires |s| > 0
    ensures s == s[..|s| - 1] + [s[|s| - 1]]
  {
  }
}
