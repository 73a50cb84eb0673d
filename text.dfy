/** The Python `str` operations the seminar pipeline relies on, over `seq<char>`. */
module Text {

  /** Python's `str.isspace()` for one character: the whitespace that
      `str.strip()`, `str.split()` and the regular-expression class `\s` use. */
  predicate IsSpace(c: char) {
    c == ' ' || c == '\t' || c == '\n' || c == '\r' || c == '\U{B}' || c == '\U{C}'
    || ('\U{1C}' <= c <= '\U{1F}') || c == '\U{85}' || c == '\U{A0}' || c == '\U{1680}'
    || ('\U{2000}' <= c <= '\U{200A}') || c == '\U{2028}' || c == '\U{2029}'
    || c == '\U{202F}' || c == '\U{205F}' || c == '\U{3000}'
  }

  predicate IsDigit(c: char) { '0' <= c <= '9' }

  /** ASCII lower-casing of one character. */
  function LowerChar(c: char): char {
    if 'A' <= c <= 'Z' then (c as int + 32) as char else c
  }

  /** `s.lower()` restricted to ASCII letters. */
  function Lower(s: string): string {
    seq(|s|, i requires 0 <= i < |s| => LowerChar(s[i]))
  }

  // ---------------------------------------------------------------------------
  // Searching

  /** `pat` occurs in `s` starting at index `k`. */
  predicate OccursAt(s: string, pat: string, k: int) {
    0 <= k && k + |pat| <= |s| && s[k..k + |pat|] == pat
  }

  /** `s.find(pat, from)`: the first index at or after `from` where `pat` occurs, or -1. */
  function Find(s: string, pat: string, from: nat): (r: int)
    ensures r == -1 || (from <= r && OccursAt(s, pat, r))
    ensures r == -1 ==> forall k :: from <= k ==> !OccursAt(s, pat, k)
    ensures r != -1 ==> forall k :: from <= k < r ==> !OccursAt(s, pat, k)
    decreases |s| - from
  {
    if from + |pat| > |s| then -1
    else if s[from..from + |pat|] == pat then from
    else Find(s, pat, from + 1)
  }

  /** `pat in s` for strings. */
  function Contains(s: string, pat: string): (b: bool)
    ensures b <==> exists k :: OccursAt(s, pat, k)
  {
    Find(s, pat, 0) != -1
  }

  /** The index of the last `c` in `s`, or -1 (what `s.rsplit(c, 1)` splits at). */
  function LastIndexOf(s: string, c: char): (r: int)
    ensures -1 <= r < |s|
    ensures r == -1 <==> c !in s
    ensures r >= 0 ==> s[r] == c && c !in s[r + 1..]
  {
    if s == [] then -1
    else if s[|s| - 1] == c then |s| - 1
    else
      assert s == s[..|s| - 1] + [s[|s| - 1]];
      LastIndexOf(s[..|s| - 1], c)
  }

  /** `s.split(c)[0]`: the text before the first `c`, or all of `s`. */
  function BeforeFirst(s: string, c: char): (r: string)
    ensures |r| <= |s| && r == s[..|r|]
    ensures c !in r
    ensures |r| < |s| ==> s[|r|] == c
  {
    if s == [] || s[0] == c then [] else [s[0]] + BeforeFirst(s[1..], c)
  }

  // ---------------------------------------------------------------------------
  // Whitespace

  /** `s.lstrip()`. */
  function LStrip(s: string): (r: string)
    ensures |r| <= |s| && r == s[|s| - |r|..]
    ensures forall i :: 0 <= i < |s| - |r| ==> IsSpace(s[i])
    ensures r == [] || !IsSpace(r[0])
  {
    if s != [] && IsSpace(s[0]) then
      var r := LStrip(s[1..]);
      assert s[1..][|s| - 1 - |r|..] == s[|s| - |r|..];
      assert forall i :: 1 <= i < |s| - |r| ==> s[i] == s[1..][i - 1];
      r
    else s
  }

  /** `s.rstrip()`. */
  function RStrip(s: string): (r: string)
    ensures |r| <= |s| && r == s[..|r|]
    ensures forall i :: |r| <= i < |s| ==> IsSpace(s[i])
    ensures r == [] || !IsSpace(r[|r| - 1])
  {
    if s != [] && IsSpace(s[|s| - 1]) then
      var r := RStrip(s[..|s| - 1]);
      assert s[..|s| - 1][..|r|] == s[..|r|];
      assert forall i :: |r| <= i < |s| - 1 ==> s[i] == s[..|s| - 1][i];
      r
    else s
  }

  /** `s.strip()`. */
  function Strip(s: string): (r: string)
    ensures r == [] || (!IsSpace(r[0]) && !IsSpace(r[|r| - 1]))
  {
    RStrip(LStrip(s))
  }

  /** `Strip` cuts a (possibly empty) window out of its argument, and everything cut off is whitespace. */
  lemma StripWindow(s: string) returns (a: nat, b: nat)
    ensures a <= b <= |s| && Strip(s) == s[a..b]
    ensures forall i :: 0 <= i < a ==> IsSpace(s[i])
    ensures forall i :: b <= i < |s| ==> IsSpace(s[i])
  {
    var l := LStrip(s);
    var r := RStrip(l);
    a := |s| - |l|;
    b := a + |r|;
    assert l == s[a..];
    assert r == l[..|r|];
    assert s[a..][..|r|] == s[a..b];
    forall i | b <= i < |s| ensures IsSpace(s[i]) {
      assert s[i] == l[i - a];
      assert IsSpace(l[i - a]);
    }
  }

  /** Text that neither starts nor ends with whitespace is its own `strip()`. */
  lemma StripKeeps(s: string)
    requires s == [] || (!IsSpace(s[0]) && !IsSpace(s[|s| - 1]))
    ensures Strip(s) == s
  {
    assert LStrip(s) == s;
  }

  /** Length of the leading run of non-whitespace characters. */
  function TokenLength(s: string): (k: nat)
    ensures k <= |s|
    ensures forall i :: 0 <= i < k ==> !IsSpace(s[i])
    ensures k == |s| || IsSpace(s[k])
  {
    if s == [] || IsSpace(s[0]) then 0 else 1 + TokenLength(s[1..])
  }

  /** A word of `str.split()`: non-empty and free of whitespace. */
  predicate IsWord(w: string) {
    |w| > 0 && forall i :: 0 <= i < |w| ==> !IsSpace(w[i])
  }

  /** `s.split()` with no separator: the maximal runs of non-whitespace, in order. */
  function Words(s: string): seq<string>
    decreases |s|
  {
    var t := LStrip(s);
    if t == [] then []
    else
      var k := TokenLength(t);
      assert k > 0 by {
        assert !IsSpace(t[0]);
      }
      [t[..k]] + Words(t[k..])
  }

  /** A text that starts with a non-whitespace character starts with a word. */
  lemma WordHead(t: string)
    requires t != [] && !IsSpace(t[0])
    ensures IsWord(t[..TokenLength(t)])
  {
    var w := t[..TokenLength(t)];
    forall i | 0 <= i < |w| ensures !IsSpace(w[i]) {
      assert w[i] == t[i];
    }
  }

  /** Every piece `Words` yields is a word. */
  lemma {:induction false} WordsAreWords(s: string)
    ensures forall j :: 0 <= j < |Words(s)| ==> IsWord(Words(s)[j])
    decreases |s|
  {
    var t := LStrip(s);
    if t != [] {
      var k := TokenLength(t);
      WordHead(t);
      var rest := Words(t[k..]);
      WordsAreWords(t[k..]);
      var ws := Words(s);
      assert ws == [t[..k]] + rest;
      forall j | 0 <= j < |ws| ensures IsWord(ws[j]) {
        if j > 0 {
          assert ws[j] == rest[j - 1];
        }
      }
    }
  }

  /** A word followed by a space and more text splits off as the first piece. */
  lemma WordsCons(w: string, rest: string)
    requires IsWord(w)
    ensures Words(w + " " + rest) == [w] + Words(rest)
  {
    var s := w + " " + rest;
    assert s[0] == w[0];
    assert LStrip(s) == s;
    var k := TokenLength(s);
    assert s[|w|] == ' ';
    forall i | 0 <= i < |w| ensures !IsSpace(s[i]) {
      assert s[i] == w[i];
    }
    assert k == |w|;
    assert s[..k] == w;
    assert s[k..] == " " + rest;
    assert LStrip(" " + rest) == LStrip(rest);
  }

  /** A single word splits into itself. */
  lemma WordsSingle(w: string)
    requires IsWord(w)
    ensures Words(w) == [w]
  {
    assert !IsSpace(w[0]);
    assert LStrip(w) == w;
    var k := TokenLength(w);
    assert k == |w|;
    assert w[..k] == w;
    assert LStrip(w[k..]) == [];
    assert Words(w[k..]) == [];
  }

  /** `" ".join(ws)`. */
  function JoinSpace(ws: seq<string>): string {
    if |ws| == 0 then ""
    else if |ws| == 1 then ws[0]
    else ws[0] + " " + JoinSpace(ws[1..])
  }

  /** `" ".join(s.split())`: collapses whitespace to single spaces and trims both ends. */
  function Collapse(s: string): string {
    JoinSpace(Words(s))
  }

  /** The only whitespace in `s` is single spaces, each between two non-whitespace characters:
      no leading or trailing whitespace, no newline, no run of two or more spaces. */
  predicate NormalSpacing(s: string) {
    forall i :: 0 <= i < |s| && IsSpace(s[i]) ==>
      s[i] == ' ' && 0 < i < |s| - 1 && !IsSpace(s[i - 1]) && !IsSpace(s[i + 1])
  }

  /** The characters of `s` that are not whitespace, in order. */
  function NonSpace(s: string): string {
    if s == [] then []
    else (if IsSpace(s[0]) then [] else [s[0]]) + NonSpace(s[1..])
  }

  function Concat(ws: seq<string>): string {
    if ws == [] then [] else ws[0] + Concat(ws[1..])
  }

  lemma {:induction false} NonSpaceAppend(a: string, b: string)
    ensures NonSpace(a + b) == NonSpace(a) + NonSpace(b)
  {
    if a == [] {
      assert a + b == b;
    } else {
      assert (a + b)[1..] == a[1..] + b;
      NonSpaceAppend(a[1..], b);
    }
  }

  lemma {:induction false} NonSpaceOfWord(w: string)
    requires forall i :: 0 <= i < |w| ==> !IsSpace(w[i])
    ensures NonSpace(w) == w
  {
    if w != [] {
      NonSpaceOfWord(w[1..]);
    }
  }

  lemma {:induction false} NonSpaceOfSpaces(w: string)
    requires forall i :: 0 <= i < |w| ==> IsSpace(w[i])
    ensures NonSpace(w) == []
  {
    if w != [] {
      NonSpaceOfSpaces(w[1..]);
    }
  }

  /** Joining clean words with single spaces yields normal spacing and keeps every
      non-whitespace character, in order. */
  lemma {:induction false} JoinSpaceNormal(ws: seq<string>)
    requires forall j :: 0 <= j < |ws| ==> IsWord(ws[j])
    ensures NormalSpacing(JoinSpace(ws))
    ensures NonSpace(JoinSpace(ws)) == Concat(ws)
    ensures |ws| > 0 ==> |JoinSpace(ws)| > 0 && !IsSpace(JoinSpace(ws)[0])
  {
    if |ws| == 1 {
      NonSpaceOfWord(ws[0]);
      assert Concat(ws[1..]) == [];
    } else if |ws| > 1 {
      JoinSpaceNormal(ws[1..]);
      JoinTwo(ws[0], JoinSpace(ws[1..]));
    }
  }

  /** One word, a space and a normally spaced non-empty text that starts with a
      non-whitespace character. */
  lemma JoinTwo(w: string, rest: string)
    requires IsWord(w) && NormalSpacing(rest) && rest != [] && !IsSpace(rest[0])
    ensures NormalSpacing(w + " " + rest) && !IsSpace((w + " " + rest)[0])
    ensures NonSpace(w + " " + rest) == w + NonSpace(rest)
  {
    JoinTwoSpacing(w, rest);
    var a := w + " ";
    NonSpaceAppend(a, rest);
    NonSpaceAppend(w, " ");
    NonSpaceOfWord(w);
    NonSpaceOfSpaces(" ");
    assert NonSpace(a) == w;
  }

  lemma JoinTwoSpacing(w: string, rest: string)
    requires IsWord(w) && NormalSpacing(rest) && rest != [] && !IsSpace(rest[0])
    ensures NormalSpacing(w + " " + rest) && !IsSpace((w + " " + rest)[0])
  {
    var r := w + " " + rest;
    forall i | 0 <= i < |w| ensures r[i] == w[i] { }
    forall i | 0 <= i < |r| && IsSpace(r[i])
      ensures r[i] == ' ' && 0 < i < |r| - 1 && !IsSpace(r[i - 1]) && !IsSpace(r[i + 1])
    {
      if i < |w| {
        assert false;
      } else if i == |w| {
        assert r[i + 1] == rest[0];
        assert r[i - 1] == w[|w| - 1];
      } else {
        var k := i - |w| - 1;
        assert r[i] == rest[k];
        assert 0 < k < |rest| - 1;
        assert r[i - 1] == rest[k - 1] && r[i + 1] == rest[k + 1];
      }
    }
  }

  /** Leading whitespace holds no non-whitespace character. */
  lemma {:induction false} NonSpaceLStrip(s: string)
    ensures NonSpace(LStrip(s)) == NonSpace(s)
    decreases |s|
  {
    if s != [] && IsSpace(s[0]) {
      NonSpaceLStrip(s[1..]);
    }
  }

  /** A leading token goes through `NonSpace` whole. */
  lemma {:induction false} NonSpaceToken(t: string)
    ensures NonSpace(t) == t[..TokenLength(t)] + NonSpace(t[TokenLength(t)..])
    decreases |t|
  {
    if t != [] && !IsSpace(t[0]) {
      NonSpaceToken(t[1..]);
      assert t[1..][TokenLength(t[1..])..] == t[TokenLength(t)..];
      assert t[..TokenLength(t)] == [t[0]] + t[1..][..TokenLength(t[1..])];
    }
  }

  /** `Words` keeps every non-whitespace character, in order. */
  lemma {:induction false} WordsKeepNonSpace(s: string)
    ensures Concat(Words(s)) == NonSpace(s)
    decreases |s|
  {
    var t := LStrip(s);
    NonSpaceLStrip(s);
    if t != [] {
      var k := TokenLength(t);
      NonSpaceToken(t);
      WordsKeepNonSpace(t[k..]);
      var ws := Words(s);
      assert ws == [t[..k]] + Words(t[k..]);
      assert ws[1..] == Words(t[k..]);
    }
  }

  /** `" ".join(s.split())` normalises the spacing and drops nothing but whitespace. */
  lemma CollapseSpec(s: string)
    ensures NormalSpacing(Collapse(s))
    ensures NonSpace(Collapse(s)) == NonSpace(s)
  {
    WordsAreWords(s);
    JoinSpaceNormal(Words(s));
    WordsKeepNonSpace(s);
  }

  /** Three words joined by single spaces come through `" ".join(s.split())` unchanged. */
  lemma CollapseThree(a: string, b: string, c: string)
    requires IsWord(a) && IsWord(b) && IsWord(c)
    ensures Collapse(a + " " + (b + " " + c)) == a + " " + (b + " " + c)
  {
    var bc := b + " " + c;
    WordsSingle(c);
    WordsCons(b, c);
    WordsCons(a, bc);
    var ws := [a] + ([b] + [c]);
    assert Words(a + " " + bc) == ws;
    assert ws[1..] == [b, c];
    assert JoinSpace([b, c]) == bc;
    assert JoinSpace(ws) == a + " " + bc;
  }

  // ---------------------------------------------------------------------------
  // Decimal numerals

  function DigitChar(d: int): char
    requires 0 <= d < 10
  {
    ('0' as int + d) as char
  }

  function DigitValue(c: char): int {
    c as int - '0' as int
  }

  predicate AllDigits(s: string) {
    forall i :: 0 <= i < |s| ==> IsDigit(s[i])
  }

  /** The value of a numeral read as decimal digits. */
  function DecimalValue(s: string): nat
    requires AllDigits(s)
  {
    if s == [] then 0 else DecimalValue(s[..|s| - 1]) * 10 + DigitValue(s[|s| - 1])
  }

  /** `str(n)` for a natural number. */
  function Digits(n: nat): (r: string)
    ensures |r| >= 1 && AllDigits(r)
    ensures DecimalValue(r) == n
    ensures n < 10 <==> |r| == 1
    ensures 10 <= n < 100 ==> |r| == 2
    ensures n >= 100 ==> |r| >= 3
    ensures |r| > 1 ==> r[0] != '0'
  {
    if n < 10 then [DigitChar(n)]
    else
      var r := Digits(n / 10) + [DigitChar(n % 10)];
      assert r[..|r| - 1] == Digits(n / 10);
      r
  }

  /** `str(i)` for an integer. */
  function IntToString(i: int): string {
    if i < 0 then "-" + Digits(-i) else Digits(i)
  }

  /** `f"{n:02d}"`: the decimal numeral, zero-padded to a width of two (the sign counts toward the width). */
  function Pad2(n: int): (r: string)
    ensures n >= 0 ==> |r| >= 2 && AllDigits(r) && DecimalValue(r) == n
    ensures 0 <= n < 100 <==> (|r| == 2 && AllDigits(r))
    ensures n < 0 ==> r == "-" + Digits(-n) && r[0] == '-'
  {
    if 0 <= n < 10 then
      var r := "0" + Digits(n);
      assert r[..|r| - 1] == "0";
      assert DecimalValue("0") == DecimalValue([]) * 10 + 0;
      r
    else IntToString(n)
  }
}
