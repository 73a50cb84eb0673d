/** The scheduled export filter: speaker scraping from HTML descriptions, duration and
    title formatting, the Monday-to-Friday window that rolls over to next week from
    Friday on, the row filter, the sort and the fixed output columns. */
module FilterSeminarier {
  import opened Text
  import opened Clock
  import opened Cells

  // ---------------------------------------------------------------------------
  // Tag stripping: re.sub(r'<[^>]+>', '', s)

  /** `s[i..k+1]` matches `<[^>]+>`. */
  predicate IsTag(s: string, i: int, k: int) {
    0 <= i && i + 2 <= k < |s| && s[i] == '<' && s[k] == '>'
    && forall m :: i < m < k ==> s[m] != '>'
  }

  /** No substring of `s` matches `<[^>]+>`. */
  predicate TagFree(s: string) {
    forall i, k :: 0 <= i < k < |s| ==> !IsTag(s, i, k)
  }

  /** `re.sub(r'<[^>]+>', '', s)`: scanning left to right, a `<` followed by one or more
      characters other than `>` and then a `>` is removed; any other character is kept. */
  function StripTags(s: string): string
    decreases |s|
  {
    if s == [] then []
    else
      var close := Find(s, ">", 1);
      if s[0] == '<' && close >= 2 then StripTags(s[close + 1..])
      else [s[0]] + StripTags(s[1..])
  }

  /** Tag stripping brings in no `>` that was not there before. */
  lemma {:induction false} StripTagsNoClose(s: string)
    requires '>' !in s
    ensures '>' !in StripTags(s)
    decreases |s|
  {
    if s != [] {
      forall k | 1 <= k ensures !OccursAt(s, ">", k) {
        if k + 1 <= |s| {
          assert s[k..k + 1] == [s[k]];
        }
      }
      assert Find(s, ">", 1) == -1;
      StripTagsNoClose(s[1..]);
    }
  }

  /** Without a `>` at or after index 1, none is in `s[1..]`. */
  lemma NoCloseAfterFirst(s: string)
    requires s != [] && Find(s, ">", 1) == -1
    ensures '>' !in s[1..]
  {
    forall j | 1 <= j < |s| ensures s[j] != '>' {
      assert !OccursAt(s, ">", j);
      assert s[j..j + 1] == [s[j]];
    }
  }

  /** After tag stripping no substring matching `<[^>]+>` remains. */
  lemma {:induction false} StripTagsSpec(s: string)
    ensures TagFree(StripTags(s))
    decreases |s|
  {
    if s != [] {
      var close := Find(s, ">", 1);
      if s[0] == '<' && close >= 2 {
        StripTagsSpec(s[close + 1..]);
      } else {
        var rest := StripTags(s[1..]);
        assert StripTags(s) == [s[0]] + rest;
        StripTagsSpec(s[1..]);
        if s[0] == '<' {
          if close == -1 {
            NoCloseAfterFirst(s);
            StripTagsNoClose(s[1..]);
          } else {
            assert s[1] == s[1..2][0];
            assert s[1..][0] == '>';
            assert rest[0] == '>';
          }
        }
        TagFreeCons(s[0], rest);
      }
    }
  }

  /** Putting a character in front of a tag-free text keeps it tag-free, unless that
      character is a `<` that some later `>` closes with something in between. */
  lemma TagFreeCons(c: char, rest: string)
    requires TagFree(rest)
    requires c == '<' ==> '>' !in rest || (rest != [] && rest[0] == '>')
    ensures TagFree([c] + rest)
  {
    var r := [c] + rest;
    forall i, k | 0 <= i < k < |r| ensures !IsTag(r, i, k) {
      if i >= 1 {
        assert !IsTag(rest, i - 1, k - 1);
        if r[i] == '<' && r[k] == '>' && i + 2 <= k {
          var m :| i - 1 < m < k - 1 && rest[m] == '>';
          assert r[m + 1] == '>';
        }
      } else if c == '<' && k >= 2 {
        if '>' !in rest {
          assert r[k] == rest[k - 1];
        } else {
          assert r[1] == '>';
        }
      }
    }
  }

  /** Tag-freedom survives cutting out a window. */
  lemma TagFreeWindow(s: string, a: nat, b: nat)
    requires a <= b <= |s| && TagFree(s)
    ensures TagFree(s[a..b])
  {
    var w := s[a..b];
    forall i, k | IsTag(w, i, k) ensures false {
      assert IsTag(s, i + a, k + a);
    }
  }

  /** A stretch of text without `<` comes through tag removal unchanged, in front of whatever
      the rest becomes. */
  lemma {:induction false} StripTagsKeepsPlain(u: string, v: string)
    requires '<' !in u
    ensures StripTags(u + v) == u + StripTags(v)
    decreases |u|
  {
    if u != [] {
      assert (u + v)[0] == u[0];
      assert (u + v)[1..] == u[1..] + v;
      StripTagsKeepsPlain(u[1..], v);
      assert u == [u[0]] + u[1..];
    } else {
      assert u + v == v;
    }
  }

  /** Text without `<` is left as it is. */
  lemma StripTagsPlain(s: string)
    requires '<' !in s
    ensures StripTags(s) == s
  {
    StripTagsKeepsPlain(s, []);
    assert s + [] == s;
  }

  /** A tag at the front, `<` then one or more characters other than `>` then `>`, is removed
      whole, and nothing after it is touched. */
  lemma StripTagsDropsTag(t: string, v: string)
    requires IsTag(t, 0, |t| - 1)
    ensures StripTags(t + v) == StripTags(v)
  {
    var s := t + v;
    var e := |t| - 1;
    assert s[e..e + 1] == [t[e]];
    forall k | 1 <= k < e ensures !OccursAt(s, ">", k) {
      assert s[k..k + 1] == [t[k]];
    }
    FindIsFirst(s, ">", 1, e);
    assert s[e + 1..] == v;
  }

  /** A `<` that opens no tag is kept as an ordinary character. */
  lemma StripTagsKeepsLoneOpen(s: string)
    requires s != [] && s[0] == '<'
    requires forall k :: 0 < k < |s| ==> !IsTag(s, 0, k)
    ensures StripTags(s) == [s[0]] + StripTags(s[1..])
  {
    var close := Find(s, ">", 1);
    if close >= 2 {
      FoundCloseIsTag(s, close);
    }
  }

  /** The first `>` after a leading `<`, two or more places on, closes a tag. */
  lemma FoundCloseIsTag(s: string, close: int)
    requires s != [] && s[0] == '<'
    requires close == Find(s, ">", 1) && close >= 2
    ensures IsTag(s, 0, close)
  {
    forall m | 0 < m < close ensures s[m] != '>' {
      assert !OccursAt(s, ">", m);
      assert s[m..m + 1] == [s[m]];
    }
    assert s[close..close + 1] == ">";
  }

  // ---------------------------------------------------------------------------
  // Speaker extraction

  const SPEAKER_MARKER := "<b>Speaker</b>"
  const LINE_BREAK := "<br"
  /** How far the scan reads when no line break ends the speaker line. */
  const SCAN_LIMIT := 200

  /** The index just past the first speaker marker. */
  function AfterMarker(clean: string): (i: nat)
    requires Contains(clean, SPEAKER_MARKER)
    ensures i <= |clean|
  {
    Find(clean, SPEAKER_MARKER, 0) + |SPEAKER_MARKER|
  }

  /** Where the speaker scan starts: just after the `>` that closes the first `<br` following
      the marker, or right after the marker when there is no such `<br` or it is never closed. */
  function ScanStart(clean: string): (lo: nat)
    requires Contains(clean, SPEAKER_MARKER)
    ensures lo <= |clean|
  {
    var br := Find(clean, LINE_BREAK, AfterMarker(clean));
    if br != -1 && Find(clean, ">", br) != -1 then Find(clean, ">", br) + 1 else AfterMarker(clean)
  }

  /** Where the speaker scan stops: the next `<br` at or after `lo`, or `lo + 200`. */
  function ScanEnd(clean: string, lo: nat): (hi: nat)
    ensures lo <= hi
  {
    var e := Find(clean, LINE_BREAK, lo);
    if e == -1 then lo + SCAN_LIMIT else e
  }

  /** `s[i]` starts the first occurrence of `pat` at or after `from`. */
  predicate FirstAt(s: string, pat: string, from: int, i: int) {
    from <= i && OccursAt(s, pat, i) && forall k :: from <= k < i ==> !OccursAt(s, pat, k)
  }

  /** The scan window, in the terms of the markers: given the first marker at `m`, the scan
      starts after the `>` closing the first `<br` at or after the marker's end, if both exist,
      and otherwise right after the marker; it ends at the first `<br` from there, or 200
      characters on. */
  lemma ScanWindowSpec(clean: string, m: nat)
    requires FirstAt(clean, SPEAKER_MARKER, 0, m)
    ensures Contains(clean, SPEAKER_MARKER) && AfterMarker(clean) == m + |SPEAKER_MARKER|
    ensures forall b, e :: (FirstAt(clean, LINE_BREAK, AfterMarker(clean), b) && FirstAt(clean, ">", b, e)
      ==> ScanStart(clean) == e + 1)
    ensures (forall b :: AfterMarker(clean) <= b ==> !OccursAt(clean, LINE_BREAK, b))
      ==> ScanStart(clean) == AfterMarker(clean)
    ensures forall b :: (FirstAt(clean, LINE_BREAK, AfterMarker(clean), b)
      && (forall e :: b <= e ==> !OccursAt(clean, ">", e))
      ==> ScanStart(clean) == AfterMarker(clean))
    ensures forall lo: nat, e :: FirstAt(clean, LINE_BREAK, lo, e) ==> ScanEnd(clean, lo) == e
    ensures forall lo: nat :: ((forall e :: lo <= e ==> !OccursAt(clean, LINE_BREAK, e))
      ==> ScanEnd(clean, lo) == lo + SCAN_LIMIT)
  {
    FindIsFirst(clean, SPEAKER_MARKER, 0, m);
    forall lo: nat, e | FirstAt(clean, LINE_BREAK, lo, e) ensures ScanEnd(clean, lo) == e {
      FindIsFirst(clean, LINE_BREAK, lo, e);
    }
    forall b, e | FirstAt(clean, LINE_BREAK, AfterMarker(clean), b) && FirstAt(clean, ">", b, e)
      ensures ScanStart(clean) == e + 1
    {
      FindIsFirst(clean, LINE_BREAK, AfterMarker(clean), b);
      FindIsFirst(clean, ">", b, e);
    }
    forall b | FirstAt(clean, LINE_BREAK, AfterMarker(clean), b) && (forall e :: b <= e ==> !OccursAt(clean, ">", e))
      ensures ScanStart(clean) == AfterMarker(clean)
    {
      FindIsFirst(clean, LINE_BREAK, AfterMarker(clean), b);
    }
  }

  /** `Find` returns the first occurrence. */
  lemma FindIsFirst(s: string, pat: string, from: nat, i: int)
    requires FirstAt(s, pat, from, i)
    ensures Find(s, pat, from) == i
  {
  }

  /** The clean-up `extract_speaker` applies to the scanned text up to the final whitespace
      collapse: strip, remove tags, strip, keep the first line, strip. */
  function Detagged(text: string): string {
    Strip(BeforeFirst(Strip(StripTags(Strip(text))), '\n'))
  }

  /** Before the final collapse the speaker text holds no tag and no line break. */
  lemma DetaggedSpec(text: string)
    ensures TagFree(Detagged(text))
    ensures '\n' !in Detagged(text)
  {
    var t2 := Strip(StripTags(Strip(text)));
    DetaggedLine(text);
    TagFreeLine(t2);
    StripTagFree(BeforeFirst(t2, '\n'));
    StripLacks(BeforeFirst(t2, '\n'), '\n');
  }

  /** The tag removal, trimmed, is tag-free. */
  lemma DetaggedLine(text: string)
    ensures TagFree(Strip(StripTags(Strip(text))))
  {
    StripTagsSpec(Strip(text));
    StripTagFree(StripTags(Strip(text)));
  }

  /** The first line of a tag-free text is tag-free. */
  lemma TagFreeLine(s: string)
    requires TagFree(s)
    ensures TagFree(BeforeFirst(s, '\n'))
  {
    TagFreeWindow(s, 0, |BeforeFirst(s, '\n')|);
  }

  /** Trimming a tag-free text leaves it tag-free. */
  lemma StripTagFree(s: string)
    requires TagFree(s)
    ensures TagFree(Strip(s))
  {
    var a, b := StripWindow(s);
    TagFreeWindow(s, a, b);
  }

  /** Trimming adds no character. */
  lemma StripLacks(s: string, c: char)
    requires c !in s
    ensures c !in Strip(s)
  {
    var a, b := StripWindow(s);
    forall i | 0 <= i < |Strip(s)| ensures Strip(s)[i] != c {
      assert Strip(s)[i] == s[a + i];
    }
  }

  /** The speaker text made from the scanned window: tag-free before the collapse, and with
      normal spacing after it, keeping every non-whitespace character. */
  function Tidy(text: string): (r: string)
    ensures NormalSpacing(r)
    ensures NonSpace(r) == NonSpace(Detagged(text))
  {
    CollapseSpec(Detagged(text));
    Collapse(Detagged(text))
  }

  /** What `extract_speaker` finds in the unescaped description text. */
  function SpeakerFromText(clean: string): (r: string)
    ensures NormalSpacing(r)
    ensures !Contains(clean, SPEAKER_MARKER) ==> r == ""
  {
    if !Contains(clean, SPEAKER_MARKER) then ""
    else
      var lo := ScanStart(clean);
      var hi := ScanEnd(clean, lo);
      Tidy(clean[lo..if hi <= |clean| then hi else |clean|])
  }

  /** `extract_speaker` as a value: nothing for a missing or empty description. */
  function SpeakerOf(description: Cell, lib: Lib): (r: string)
    ensures NormalSpacing(r)
    ensures description.Missing? || !Truthy(description) ==> r == ""
  {
    if description.Missing? || !Truthy(description) then ""
    else SpeakerFromText(lib.unescape(Str(description, lib)))
  }

  /** `extract_speaker`. */
  method ExtractSpeaker(description: Cell, lib: Lib) returns (speaker: string)
    ensures speaker == SpeakerOf(description, lib)
    ensures NormalSpacing(speaker)
  {
    if description.Missing? || !Truthy(description) {
      return "";
    }
    var clean := lib.unescape(Str(description, lib));
    if Contains(clean, SPEAKER_MARKER) {
      var startIdx: nat := Find(clean, SPEAKER_MARKER, 0) + |SPEAKER_MARKER|;
      var brIdx := Find(clean, LINE_BREAK, startIdx);
      if brIdx != -1 {
        var brEnd := Find(clean, ">", brIdx);
        if brEnd != -1 {
          startIdx := brEnd + 1;
        }
      }
      assert startIdx == ScanStart(clean);
      var endIdx := Find(clean, LINE_BREAK, startIdx);
      if endIdx == -1 {
        endIdx := startIdx + SCAN_LIMIT;
      }
      assert endIdx == ScanEnd(clean, startIdx);
      ghost var window := clean[startIdx..if endIdx <= |clean| then endIdx else |clean|];
      var speakerText := Strip(clean[startIdx..if endIdx <= |clean| then endIdx else |clean|]);
      speakerText := Strip(StripTags(speakerText));
      speakerText := Strip(BeforeFirst(speakerText, '\n'));
      assert speakerText == Detagged(window);
      speakerText := Collapse(speakerText);
      assert speakerText == Tidy(window);
      return speakerText;
    }
    return "";
  }

  /** The layout the scraper is written for: the heading, a `<br/>`, the speaker line and the
      next `<br`. The speaker is that line, tidied, whatever follows it. */
  lemma SpeakerLine(line: string, rest: string)
    requires '<' !in line
    ensures SpeakerFromText(SPEAKER_MARKER + "<br/>" + line + LINE_BREAK + rest) == Tidy(line)
  {
    var clean := SPEAKER_MARKER + "<br/>" + line + LINE_BREAK + rest;
    var n := |line|;
    assert clean[..14] == SPEAKER_MARKER;
    assert FirstAt(clean, SPEAKER_MARKER, 0, 0);
    assert clean[14..19] == "<br/>";
    assert clean[14..17] == LINE_BREAK;
    assert FirstAt(clean, LINE_BREAK, 14, 14);
    forall k | 14 <= k < 18 ensures !OccursAt(clean, ">", k) {
      assert clean[k..k + 1] == [clean[k]];
      assert clean[k] == clean[14..19][k - 14];
    }
    assert clean[18..19] == ">";
    assert FirstAt(clean, ">", 14, 18);
    assert clean[19..19 + n] == line;
    forall k | 19 <= k < 19 + n ensures !OccursAt(clean, LINE_BREAK, k) {
      assert clean[k..k + 3][0] == clean[k] == line[k - 19];
    }
    assert clean[19 + n..22 + n] == LINE_BREAK;
    assert FirstAt(clean, LINE_BREAK, 19, 19 + n);
    ScanWindowSpec(clean, 0);
  }

  /** The example the scraper's description gives: `Jane Doe, MIT` between the `<br/>` after
      the heading and the next `<br/>`. */
  lemma SpeakerExample()
    ensures SpeakerFromText("<b>Speaker</b><br/>Jane Doe, MIT<br/>Abstract...") == "Jane Doe, MIT"
  {
    ExampleLayout();
    SpeakerLine("Jane Doe, MIT", "/>Abstract...");
    ExampleLine();
  }

  lemma ExampleLayout()
    ensures "<b>Speaker</b><br/>Jane Doe, MIT<br/>Abstract..."
      == SPEAKER_MARKER + "<br/>" + "Jane Doe, MIT" + LINE_BREAK + "/>Abstract..."
  {
  }

  lemma ExampleLine()
    ensures Tidy("Jane Doe, MIT") == "Jane Doe, MIT"
  {
    DetaggedPlain("Jane Doe, MIT");
    ExampleCollapse();
  }

  lemma ExampleCollapse()
    ensures Collapse("Jane Doe, MIT") == "Jane Doe, MIT"
  {
    var a, b, c := "Jane", "Doe,", "MIT";
    assert IsWord(a) && IsWord(b) && IsWord(c);
    assert "Jane Doe, MIT" == a + " " + (b + " " + c);
    CollapseThree(a, b, c);
  }

  /** A line without `<` or a line break that neither starts nor ends with whitespace is
      already clean. */
  lemma DetaggedPlain(line: string)
    requires '<' !in line && '\n' !in line
    requires line == [] || (!IsSpace(line[0]) && !IsSpace(line[|line| - 1]))
    ensures Detagged(line) == line
  {
    StripKeeps(line);
    StripTagsPlain(line);
    var first := BeforeFirst(line, '\n');
    assert forall i :: 0 <= i < |line| ==> line[i] != '\n';
    assert first == line[..|line|] == line;
    assert Detagged(line) == Strip(first);
  }

  // ---------------------------------------------------------------------------
  // Durations

  /** `int(td.total_seconds())`: whole seconds, truncated toward zero. */
  function TotalSeconds(micros: int): int {
    if micros >= 0 then micros / MICROS_PER_SECOND else -((-micros) / MICROS_PER_SECOND)
  }

  /** `f"{s // 3600:02d}:{(s % 3600) // 60:02d}"` (floor division, as in Python). */
  function FormatSeconds(total: int): string {
    Pad2(total / 3600) + ":" + Pad2((total % 3600) / 60)
  }

  /** `format_time`: `""` for a missing value, `HH:MM` for a duration; `None` where the value
      has no `total_seconds` and the call raises. */
  function FormatTime(c: Cell): Option<string> {
    match c
    case Missing => Some("")
    case Duration(us) => Some(FormatSeconds(TotalSeconds(us)))
    case _ => None
  }

  /** The minutes field is always two digits below 60; for a non-negative count the two fields
      account for every whole minute and drop only the leftover seconds. */
  lemma FormatSecondsSpec(total: int)
    ensures var h, m := total / 3600, (total % 3600) / 60;
      && 0 <= m < 60
      && FormatSeconds(total) == Pad2(h) + ":" + Pad2(m)
      && |Pad2(m)| == 2 && AllDigits(Pad2(m)) && DecimalValue(Pad2(m)) == m
      && (total >= 0 ==> h * 3600 + m * 60 == total - total % 60)
  {
  }

  /** Below 100 hours the text is exactly `HH:MM`, and reading its two fields back gives the
      duration rounded down to the minute. */
  lemma FormatSecondsRoundTrip(total: int)
    requires 0 <= total < 100 * 3600
    ensures var r := FormatSeconds(total);
      && |r| == 5 && r[2] == ':' && AllDigits(r[..2]) && AllDigits(r[3..])
      && DecimalValue(r[..2]) * 3600 + DecimalValue(r[3..]) * 60 == total - total % 60
  {
    var h, m := total / 3600, (total % 3600) / 60;
    var r := FormatSeconds(total);
    assert r[..2] == Pad2(h);
    assert r[3..] == Pad2(m);
  }

  /** For a non-negative duration the clock fields come from the truncated second count. */
  lemma FormatTimeSpec(c: Cell)
    ensures c.Missing? ==> FormatTime(c) == Some("")
    ensures c.Duration? && c.micros >= 0 ==>
      var s := c.micros / MICROS_PER_SECOND;
      FormatTime(c) == Some(Pad2(s / 3600) + ":" + Pad2((s % 3600) / 60))
      && (s / 3600) * 3600 + ((s % 3600) / 60) * 60 == s - s % 60
    ensures !c.Missing? && !c.Duration? ==> FormatTime(c).None?
  {
    if c.Duration? && c.micros >= 0 {
      FormatSecondsSpec(c.micros / MICROS_PER_SECOND);
    }
  }

  // ---------------------------------------------------------------------------
  // Titles: re.sub(r'^(WS|Workshop|Seminar)[,:\s]+', '', title, flags=re.IGNORECASE)

  /** The alternatives of the prefix pattern, in the order the regex tries them, lower-cased. */
  const TITLE_PREFIXES: seq<string> := ["ws", "workshop", "seminar"]

  /** `c` matches the pattern letter `p` (lower-case ASCII in the prefixes) under Python's
      `re.IGNORECASE`, which also
      folds U+0130 and U+0131 to `i`, U+017F to `s` and U+212A to `k`. */
  predicate FoldsTo(c: char, p: char) {
    c == p || ('a' <= p <= 'z' && c as int == p as int - 32)
    || (p == 'i' && (c == '\U{130}' || c == '\U{131}'))
    || (p == 's' && c == '\U{17F}')
    || (p == 'k' && c == '\U{212A}')
  }

  predicate IsSeparator(c: char) {
    c == ',' || c == ':' || IsSpace(c)
  }

  /** `t` starts with `p` (case-insensitively) followed by a separator. */
  predicate Introduces(t: string, p: string) {
    |p| < |t| && (forall i :: 0 <= i < |p| ==> FoldsTo(t[i], p[i])) && IsSeparator(t[|p|])
  }

  /** Length of the run of separators that `s` starts with. */
  function SeparatorRun(s: string): (k: nat)
    ensures k <= |s|
    ensures forall i :: 0 <= i < k ==> IsSeparator(s[i])
    ensures k == |s| || !IsSeparator(s[k])
  {
    if s == [] || !IsSeparator(s[0]) then 0 else 1 + SeparatorRun(s[1..])
  }

  /** Length of the regex match at the start of `t`, trying `alts` in order; 0 for no match. */
  function PrefixMatch(t: string, alts: seq<string>): (n: nat)
    ensures n <= |t|
    ensures n == 0 <==> forall j :: 0 <= j < |alts| ==> !Introduces(t, alts[j])
    ensures n > 0 ==> n == |t| || !IsSeparator(t[n])
    ensures n > 0 ==> exists j :: (0 <= j < |alts| && Introduces(t, alts[j]) && |alts[j]| < n
      && forall i :: |alts[j]| <= i < n ==> IsSeparator(t[i]))
  {
    if alts == [] then 0
    else if Introduces(t, alts[0]) then
      var p := |alts[0]|;
      var n := p + SeparatorRun(t[p..]);
      assert forall i :: p <= i < n ==> t[i] == t[p..][i - p];
      assert n < |t| ==> t[n] == t[p..][n - p];
      n
    else
      var n := PrefixMatch(t, alts[1..]);
      assert forall j :: 1 <= j < |alts| ==> alts[j] == alts[1..][j - 1];
      n
  }

  /** `re.sub(r'^(WS|Workshop|Seminar)[,:\s]+', '', t, flags=re.IGNORECASE)`. */
  function StripTitlePrefix(t: string): string {
    t[PrefixMatch(t, TITLE_PREFIXES)..]
  }

  /** `clean_title`: a missing title is empty; any other is trimmed and loses its prefix. */
  function CleanTitle(title: Cell, lib: Lib): string {
    if title.Missing? then "" else StripTitlePrefix(Strip(Str(title, lib)))
  }

  /** The prefix removal on a trimmed title `t` removes at most one leading `WS`, `Workshop`
      or `Seminar` (in any case) together with the whole run of `,`, `:` and whitespace
      after it: the result is a suffix of `t`; it is `t` itself when no alternative followed
      by a separator starts `t`; otherwise the one alternative that does is cut off with
      every separator after it, and the result does not start with a separator. */
  lemma StripTitlePrefixSpec(t: string)
    ensures |StripTitlePrefix(t)| <= |t| && StripTitlePrefix(t) == t[|t| - |StripTitlePrefix(t)|..]
    ensures (forall j :: 0 <= j < |TITLE_PREFIXES| ==> !Introduces(t, TITLE_PREFIXES[j])) <==> StripTitlePrefix(t) == t
    ensures forall j :: 0 <= j < |TITLE_PREFIXES| && Introduces(t, TITLE_PREFIXES[j]) ==>
      (&& |TITLE_PREFIXES[j]| < |t| - |StripTitlePrefix(t)|
       && (forall i :: |TITLE_PREFIXES[j]| <= i < |t| - |StripTitlePrefix(t)| ==> IsSeparator(t[i]))
       && (StripTitlePrefix(t) == [] || !IsSeparator(StripTitlePrefix(t)[0])))
  {
    var n := PrefixMatch(t, TITLE_PREFIXES);
    var r := StripTitlePrefix(t);
    assert |r| == |t| - n;
    assert r == t <==> n == 0;
    forall j | 0 <= j < |TITLE_PREFIXES| && Introduces(t, TITLE_PREFIXES[j])
      ensures |TITLE_PREFIXES[j]| < n
      ensures forall i :: |TITLE_PREFIXES[j]| <= i < n ==> IsSeparator(t[i])
    {
      var k :| 0 <= k < |TITLE_PREFIXES| && Introduces(t, TITLE_PREFIXES[k]) && |TITLE_PREFIXES[k]| < n
        && forall i :: |TITLE_PREFIXES[k]| <= i < n ==> IsSeparator(t[i]);
      TitlePrefixesExclusive(t, j, k);
    }
  }

  /** `clean_title` gives "" for a missing title; otherwise it gives a suffix of the trimmed
      text, and in both cases the result neither starts nor ends with whitespace. */
  lemma CleanTitleSpec(title: Cell, lib: Lib)
    ensures title.Missing? ==> CleanTitle(title, lib) == ""
    ensures !title.Missing? ==>
      var t := Strip(Str(title, lib));
      |CleanTitle(title, lib)| <= |t| && CleanTitle(title, lib) == t[|t| - |CleanTitle(title, lib)|..]
    ensures CleanTitle(title, lib) == []
      || (!IsSpace(CleanTitle(title, lib)[0]) && !IsSpace(CleanTitle(title, lib)[|CleanTitle(title, lib)| - 1]))
  {
    if !title.Missing? {
      var t := Strip(Str(title, lib));
      PrefixCutTrimmed(t, TITLE_PREFIXES);
      assert CleanTitle(title, lib) == t[PrefixMatch(t, TITLE_PREFIXES)..];
    }
  }

  /** Cutting a prefix match off a trimmed title leaves a trimmed text. */
  lemma PrefixCutTrimmed(t: string, alts: seq<string>)
    requires t == [] || (!IsSpace(t[0]) && !IsSpace(t[|t| - 1]))
    ensures t[PrefixMatch(t, alts)..] == []
      || (!IsSpace(t[PrefixMatch(t, alts)..][0]) && !IsSpace(t[|t| - 1]))
  {
    var n := PrefixMatch(t, alts);
    CutTrimmed(t, n);
  }

  /** Cutting off a prefix of a trimmed text that is empty or ends before a non-separator
      leaves a trimmed text. */
  lemma CutTrimmed(t: string, n: nat)
    requires t == [] || (!IsSpace(t[0]) && !IsSpace(t[|t| - 1]))
    requires n <= |t| && (n == 0 || n == |t| || !IsSeparator(t[n]))
    ensures t[n..] == [] || (!IsSpace(t[n..][0]) && !IsSpace(t[n..][|t| - n - 1]))
  {
    if n < |t| {
      assert t[n..][0] == t[n];
      assert t[n..][|t| - n - 1] == t[|t| - 1];
    }
  }

  /** At most one alternative can introduce a title: their first two letters differ. */
  lemma TitlePrefixesExclusive(t: string, j: nat, k: nat)
    requires j < |TITLE_PREFIXES| && k < |TITLE_PREFIXES|
    requires Introduces(t, TITLE_PREFIXES[j]) && Introduces(t, TITLE_PREFIXES[k])
    ensures j == k
  {
    assert FoldsTo(t[0], TITLE_PREFIXES[j][0]) && FoldsTo(t[1], TITLE_PREFIXES[j][1]);
    assert FoldsTo(t[0], TITLE_PREFIXES[k][0]) && FoldsTo(t[1], TITLE_PREFIXES[k][1]);
  }

  // ---------------------------------------------------------------------------
  // The display window

  /** 4 days 23:59:59 in microseconds. */
  const WINDOW_LENGTH := (4 * SECONDS_PER_DAY + 23 * 3600 + 59 * 60 + 59) * MICROS_PER_SECOND

  /** `start_of_week`: midnight of this week's Monday, or of next week's from Friday on. */
  function WindowStart(now: Instant): Instant {
    var today := DayOf(now);
    var monday := today - Weekday(today);
    Midnight(if Weekday(today) >= 4 then monday + 7 else monday)
  }

  /** `end_of_week`: 23:59:59 on the Friday of the same week. */
  function WindowEnd(now: Instant): Instant {
    WindowStart(now) + WINDOW_LENGTH
  }

  /** The window runs from a Monday at midnight to the Friday at 23:59:59. Monday to Thursday
      it is the current week and contains `now`; Friday to Sunday it is the next week and
      lies wholly after `now`, starting one to three days later. */
  lemma WindowSpec(now: Instant)
    ensures var s, e, today := WindowStart(now), WindowEnd(now), DayOf(now);
      && s == Midnight(DayOf(s)) && Weekday(DayOf(s)) == 0
      && DayOf(e) == DayOf(s) + 4 && e == Midnight(DayOf(s) + 4) + (SECONDS_PER_DAY - 1) * MICROS_PER_SECOND
      && (Weekday(today) < 4 ==> DayOf(s) == today - Weekday(today) && s <= now <= e)
      && (Weekday(today) >= 4 ==>
            DayOf(s) == today - Weekday(today) + 7 && now < s && 1 <= DayOf(s) - today <= 3)
  {
    var today := DayOf(now);
    WeekdayArithmetic(today, 1);
    DayBounds(now);
  }

  // ---------------------------------------------------------------------------
  // The frame

  /** The rows of `df[name] = values`. */
  function WithColumn(rows: seq<Row>, name: string, values: seq<Cell>): (r: seq<Row>)
    requires |values| == |rows|
    ensures |r| == |rows|
    ensures forall i :: 0 <= i < |rows| ==> r[i] == rows[i][name := values[i]]
  {
    seq(|rows|, i requires 0 <= i < |rows| => rows[i][name := values[i]])
  }

  /** `df[name] = values`: replace or append a column. */
  function SetColumn(t: Table, name: string, values: seq<Cell>): (r: Table)
    requires |values| == |t.rows|
    ensures |r.rows| == |t.rows|
    ensures forall i :: 0 <= i < |t.rows| ==> r.rows[i] == t.rows[i][name := values[i]]
    ensures forall c :: c in r.columns <==> c in t.columns || c == name
  {
    Table(if name in t.columns then t.columns else t.columns + [name], WithColumn(t.rows, name, values))
  }

  /** What `pd.to_datetime` makes of one cell: NaN becomes NaT. */
  function Convert(c: Cell, lib: Lib): Conversion {
    if c.Missing? then NotATime else lib.toTimestamp(c)
  }

  function AsCell(v: Conversion): Cell {
    match v
    case Converted(t) => Stamp(t)
    case _ => Missing
  }

  /** `pd.to_datetime(df[name])` succeeds: no cell of the column is unconvertible. */
  predicate Convertible(t: Table, name: string, lib: Lib) {
    forall i :: 0 <= i < |t.rows| ==> !Convert(CellOf(t.rows[i], name), lib).Unconvertible?
  }

  /** `df[name] = pd.to_datetime(df[name])`. */
  function ConvertColumn(t: Table, name: string, lib: Lib): Table {
    SetColumn(t, name, seq(|t.rows|, i requires 0 <= i < |t.rows| => AsCell(Convert(CellOf(t.rows[i], name), lib))))
  }

  /** The `.str` accessor accepts the column: it is empty or holds some text. */
  predicate TextColumn(t: Table, name: string) {
    |t.rows| == 0 || exists i :: 0 <= i < |t.rows| && CellOf(t.rows[i], name).Text?
  }

  /** `df['Tag(s)'].str.contains('website', na=False)` for one cell: only text counts, and
      the match is case-sensitive. */
  predicate MarkedForWebsite(c: Cell) {
    c.Text? && Contains(c.text, "website")
  }

  /** The filter mask of `main` for one converted row. */
  predicate Wanted(row: Row, now: Instant) {
    && CellOf(row, "Start date").Stamp?
    && WindowStart(now) <= CellOf(row, "Start date").at <= WindowEnd(now)
    && now <= CellOf(row, "Start date").at
    && MarkedForWebsite(CellOf(row, "Tag(s)"))
  }

  /** `df[mask]`: the wanted rows, in order. */
  function Where(rows: seq<Row>, now: Instant): (r: seq<Row>)
    ensures |r| <= |rows|
    ensures forall x :: x in r <==> x in rows && Wanted(x, now)
  {
    if rows == [] then []
    else
      var rest := Where(rows[1..], now);
      assert forall x :: x in rows <==> x == rows[0] || x in rows[1..];
      if Wanted(rows[0], now) then [rows[0]] + rest else rest
  }

  /** The mask works row by row: filtering a concatenation filters each part and keeps the
      parts in order, so the selected rows keep their source order. */
  lemma {:induction false} WhereAppend(a: seq<Row>, b: seq<Row>, now: Instant)
    ensures Where(a + b, now) == Where(a, now) + Where(b, now)
    decreases |a|
  {
    if a == [] {
      assert a + b == b;
    } else {
      assert (a + b)[0] == a[0];
      assert (a + b)[1..] == a[1..] + b;
      WhereAppend(a[1..], b, now);
    }
  }

  /** A single row is kept exactly when it is wanted. */
  lemma WhereSingle(x: Row, now: Instant)
    ensures Where([x], now) == if Wanted(x, now) then [x] else []
  {
    assert [x][1..] == [];
  }

  /** Each wanted row is kept once per occurrence, and no other row is kept. */
  lemma {:induction false} WhereCount(rows: seq<Row>, now: Instant)
    ensures forall x :: multiset(Where(rows, now))[x] == if Wanted(x, now) then multiset(rows)[x] else 0
    decreases |rows|
  {
    if rows != [] {
      WhereCount(rows[1..], now);
      assert rows == [rows[0]] + rows[1..];
      assert multiset(rows) == multiset{rows[0]} + multiset(rows[1..]);
    }
  }

  /** `apply(format_time)` succeeds on every row of the column. */
  predicate Durations(rows: seq<Row>, name: string) {
    forall i :: 0 <= i < |rows| ==> FormatTime(CellOf(rows[i], name)).Some?
  }

  function TextOf(c: Cell): string {
    if c.Text? then c.text else ""
  }

  function StampOf(c: Cell): Instant {
    if c.Stamp? then c.at else 0
  }

  function FormattedOf(c: Cell): string {
    match FormatTime(c)
    case Some(s) => s
    case None => ""
  }

  // ---------------------------------------------------------------------------
  // Sorting: sort_values(['Start date', 'Start time']), a stable lexicographic sort with
  // missing values last.

  datatype SortKey = SortKey(date: Option<int>, time: Option<int>)

  function KeyOf(c: Cell): Option<int> {
    match c
    case Stamp(t) => Some(t)
    case Duration(us) => Some(us)
    case _ => None
  }

  function RowKey(r: Row): SortKey {
    SortKey(KeyOf(CellOf(r, "Start date")), KeyOf(CellOf(r, "Start time")))
  }

  /** Ascending order with a missing value after every present one. */
  predicate OptLe(a: Option<int>, b: Option<int>) {
    match a
    case None => b.None?
    case Some(x) => b.None? || x <= b.value
  }

  predicate KeyLe(a: SortKey, b: SortKey) {
    (OptLe(a.date, b.date) && a.date != b.date) || (a.date == b.date && OptLe(a.time, b.time))
  }

  /** The key order is a total preorder, and keys that are mutually below each other are equal. */
  lemma KeyOrder(a: SortKey, b: SortKey, c: SortKey)
    ensures KeyLe(a, a)
    ensures KeyLe(a, b) || KeyLe(b, a)
    ensures KeyLe(a, b) && KeyLe(b, c) ==> KeyLe(a, c)
    ensures KeyLe(a, b) && KeyLe(b, a) ==> a == b
  {
  }

  predicate Sorted(s: seq<Row>) {
    forall i, j :: 0 <= i < j < |s| ==> KeyLe(RowKey(s[i]), RowKey(s[j]))
  }

  /** The rows of `s` with key `k`, in order. */
  function WithKey(s: seq<Row>, k: SortKey): seq<Row> {
    if s == [] then [] else (if RowKey(s[0]) == k then [s[0]] else []) + WithKey(s[1..], k)
  }

  /** Put `x` in front of the first row whose key is not below its own. */
  function Insert(x: Row, s: seq<Row>): seq<Row> {
    if s == [] || KeyLe(RowKey(x), RowKey(s[0])) then [x] + s
    else [s[0]] + Insert(x, s[1..])
  }

  function SortRows(s: seq<Row>): seq<Row> {
    if s == [] then [] else Insert(s[0], SortRows(s[1..]))
  }

  /** Insertion keeps exactly the rows it was given plus the new one. */
  lemma {:induction false} InsertPermutes(x: Row, s: seq<Row>)
    ensures multiset(Insert(x, s)) == multiset(s) + multiset{x}
  {
    if s != [] && !KeyLe(RowKey(x), RowKey(s[0])) {
      InsertPermutes(x, s[1..]);
      assert s == [s[0]] + s[1..];
    }
  }

  /** Insertion into a sorted sequence keeps it sorted. */
  lemma {:induction false} InsertSorted(x: Row, s: seq<Row>)
    requires Sorted(s)
    ensures Sorted(Insert(x, s))
  {
    var r := Insert(x, s);
    if s == [] || KeyLe(RowKey(x), RowKey(s[0])) {
      forall i, j | 0 <= i < j < |r| ensures KeyLe(RowKey(r[i]), RowKey(r[j])) {
        if i == 0 && j >= 2 {
          KeyOrder(RowKey(x), RowKey(s[0]), RowKey(s[j - 1]));
        }
      }
    } else {
      var rest := Insert(x, s[1..]);
      InsertSorted(x, s[1..]);
      InsertPermutes(x, s[1..]);
      KeyOrder(RowKey(x), RowKey(s[0]), RowKey(s[0]));
      forall j | 0 <= j < |rest| ensures KeyLe(RowKey(s[0]), RowKey(rest[j])) {
        assert rest[j] in multiset(s[1..]) + multiset{x};
        if rest[j] != x {
          assert rest[j] in s[1..];
        }
      }
    }
  }

  /** Insertion into a sorted sequence is stable: the new row goes before every row with
      the same key, which come after it in the input, and those rows keep their order. */
  lemma {:induction false} InsertStable(x: Row, s: seq<Row>, k: SortKey)
    requires Sorted(s)
    ensures WithKey(Insert(x, s), k) == (if RowKey(x) == k then [x] else []) + WithKey(s, k)
  {
    if s == [] || KeyLe(RowKey(x), RowKey(s[0])) {
      assert ([x] + s)[1..] == s;
    } else {
      InsertStable(x, s[1..], k);
      var r := [s[0]] + Insert(x, s[1..]);
      assert r[1..] == Insert(x, s[1..]);
      KeyOrder(RowKey(x), RowKey(s[0]), RowKey(s[0]));
    }
  }

  /** The sort orders by key, keeps exactly the rows it was given, and is stable: the rows
      that share a key keep their relative order. */
  lemma {:induction false} SortRowsSpec(s: seq<Row>)
    ensures Sorted(SortRows(s))
    ensures multiset(SortRows(s)) == multiset(s)
    ensures forall k :: WithKey(SortRows(s), k) == WithKey(s, k)
  {
    if s != [] {
      SortRowsSpec(s[1..]);
      InsertPermutes(s[0], SortRows(s[1..]));
      InsertSorted(s[0], SortRows(s[1..]));
      forall k ensures WithKey(SortRows(s), k) == WithKey(s, k) {
        InsertStable(s[0], SortRows(s[1..]), k);
      }
      assert s == [s[0]] + s[1..];
    }
  }

  // ---------------------------------------------------------------------------
  // The output

  /** The frame columns selected for the snapshot, in the order they are renamed to
      `SNAPSHOT_COLUMNS`. */
  const SELECTED_COLUMNS: seq<string> :=
    ["Title", "Title_Clean", "Speaker", "Start date", "Date_Display", "Time_Display", "Room location"]

  /** `output_df.columns = [...]` applied to one row of `df_filtered[SELECTED_COLUMNS]`. */
  function Project(r: Row): (s: Seminar)
    ensures forall i :: 0 <= i < |SELECTED_COLUMNS| ==> Fields(s)[i] == CellOf(r, SELECTED_COLUMNS[i])
  {
    Seminar(CellOf(r, "Title"), CellOf(r, "Title_Clean"), CellOf(r, "Speaker"), CellOf(r, "Start date"),
      CellOf(r, "Date_Display"), CellOf(r, "Time_Display"), CellOf(r, "Room location"))
  }

  /** The columns `main` reads, in the order it first reads them. */
  const REQUIRED_COLUMNS: seq<string> :=
    ["Start date", "End date", "Tag(s)", "Description", "Start time", "End time", "Title", "Room location"]

  datatype Fault =
    | MissingColumn(column: string)     // KeyError
    | UnparseableDate(column: string)   // pd.to_datetime raises
    | NotText(column: string)           // the .str accessor refuses the column
    | NotADuration(column: string)      // format_time meets a value without total_seconds
    | NotJoinable(column: string)       // `+ '-'` refuses the dtype of an empty time column

  /** What a run of `main` leaves behind: a snapshot written, or an error reported and the
      previous snapshot untouched. */
  datatype Run = Wrote(rows: seq<Seminar>) | Aborted(fault: Fault)

  /** The table after both date columns have been converted. */
  function Prepared(table: Table, lib: Lib): Table {
    ConvertColumn(ConvertColumn(table, "Start date", lib), "End date", lib)
  }

  /** The rows that pass the filter mask, in source order. */
  function Candidates(table: Table, now: Instant, lib: Lib): seq<Row> {
    Where(Prepared(table, lib).rows, now)
  }

  /** The snapshot record one candidate row becomes. */
  function Display(r: Row, lib: Lib): Seminar {
    Seminar(
      CellOf(r, "Title"),
      Text(CleanTitle(CellOf(r, "Title"), lib)),
      Text(SpeakerOf(CellOf(r, "Description"), lib)),
      CellOf(r, "Start date"),
      Text(lib.dayName(DayOf(StampOf(CellOf(r, "Start date"))))),
      Text(FormattedOf(CellOf(r, "Start time")) + "-" + FormattedOf(CellOf(r, "End time"))),
      CellOf(r, "Room location"))
  }

  function DisplayAll(rows: seq<Row>, lib: Lib): (r: seq<Seminar>)
    ensures |r| == |rows|
    ensures forall i :: 0 <= i < |rows| ==> r[i] == Display(rows[i], lib)
  {
    seq(|rows|, i requires 0 <= i < |rows| => Display(rows[i], lib))
  }

  /** Two cells pandas can hold in one column of a single non-`object` dtype. */
  predicate SameKind(a: Cell, b: Cell) {
    || a.Missing? || b.Missing?
    || (a.Number? && b.Number?) || (a.Stamp? && b.Stamp?) || (a.Duration? && b.Duration?)
  }

  /** pandas holds column `name` of the frame as read with dtype `object`: the frame has no
      rows, or the column holds text, or values of two kinds. Otherwise a column of durations
      is `timedelta64`, one of stamps `datetime64`, and one of numbers or only missing values
      `float64`. Filtering rows keeps a column's dtype. */
  predicate ObjectColumn(t: Table, name: string) {
    || |t.rows| == 0
    || (exists i :: 0 <= i < |t.rows| && CellOf(t.rows[i], name).Text?)
    || (exists i, j :: 0 <= i < |t.rows| && 0 <= j < |t.rows| && !SameKind(CellOf(t.rows[i], name), CellOf(t.rows[j], name)))
  }

  /** Everything `main` needs after the filter, for the frame `table` as read and the rows
      that passed the filter: every required column; durations or missing values in both
      time columns of those rows; and, when no row passed, a start-time column of dtype
      `object`. `Series.apply` on no rows returns an empty column of its input's dtype, and
      `+ '-'` raises on an empty `timedelta64` or `float64` column. */
  predicate Completable(table: Table, rows: seq<Row>) {
    && (forall c :: c in REQUIRED_COLUMNS ==> c in table.columns)
    && Durations(rows, "Start time")
    && Durations(rows, "End time")
    && (rows == [] ==> ObjectColumn(table, "Start time"))
  }

  /** Everything `main` needs to get through to writing the snapshot. */
  predicate Runnable(table: Table, now: Instant, lib: Lib) {
    Filterable(table, lib) && Completable(table, Candidates(table, now, lib))
  }

  /** `REQUIRED_COLUMNS[k]` is the first required column the table lacks. */
  predicate FirstAbsent(columns: seq<string>, k: int) {
    0 <= k < |REQUIRED_COLUMNS| && REQUIRED_COLUMNS[k] !in columns
    && forall j :: 0 <= j < k ==> REQUIRED_COLUMNS[j] in columns
  }

  /** The date columns are present and convertible and the tag column is text: `main` gets
      as far as filtering. */
  predicate Filterable(table: Table, lib: Lib) {
    && "Start date" in table.columns && Convertible(table, "Start date", lib)
    && "End date" in table.columns && Convertible(ConvertColumn(table, "Start date", lib), "End date", lib)
    && "Tag(s)" in table.columns && TextColumn(Prepared(table, lib), "Tag(s)")
  }

  /** The first fault of `main` up to the filter, in the order the source meets the columns
      and the conversions. */
  function EarlyFault(table: Table, lib: Lib): (f: Fault)
    requires !Filterable(table, lib)
    ensures f.MissingColumn? ==> exists k :: FirstAbsent(table.columns, k) && f.column == REQUIRED_COLUMNS[k]
    ensures f.UnparseableDate? ==>
      || (f.column == "Start date" && !Convertible(table, "Start date", lib))
      || (f.column == "End date" && !Convertible(ConvertColumn(table, "Start date", lib), "End date", lib))
    ensures f.NotText? ==> f.column == "Tag(s)" && !TextColumn(Prepared(table, lib), "Tag(s)")
    ensures !f.NotADuration? && !f.NotJoinable?
  {
    var columns := table.columns;
    if "Start date" !in columns then
      assert FirstAbsent(columns, 0);
      MissingColumn("Start date")
    else if !Convertible(table, "Start date", lib) then UnparseableDate("Start date")
    else if "End date" !in columns then
      assert FirstAbsent(columns, 1);
      MissingColumn("End date")
    else if !Convertible(ConvertColumn(table, "Start date", lib), "End date", lib) then UnparseableDate("End date")
    else if "Tag(s)" !in columns then
      assert FirstAbsent(columns, 2);
      MissingColumn("Tag(s)")
    else NotText("Tag(s)")
  }

  /** The first fault of `main` after the filter, for the frame `table` as read, whose date
      and tag columns are present, and the rows that passed the filter. */
  function LateFault(table: Table, rows: seq<Row>): (f: Fault)
    requires "Start date" in table.columns && "End date" in table.columns && "Tag(s)" in table.columns
    requires !Completable(table, rows)
    ensures f.MissingColumn? ==> exists k :: FirstAbsent(table.columns, k) && f.column == REQUIRED_COLUMNS[k]
    ensures f.NotADuration? ==> f.column in ["Start time", "End time"] && !Durations(rows, f.column)
    ensures f.NotJoinable? ==> f.column == "Time_Start" && rows == [] && !ObjectColumn(table, "Start time")
    ensures f.MissingColumn? || f.NotADuration? || f.NotJoinable?
  {
    var columns := table.columns;
    if "Description" !in columns then
      assert FirstAbsent(columns, 3);
      MissingColumn("Description")
    else if "Start time" !in columns then
      assert FirstAbsent(columns, 4);
      MissingColumn("Start time")
    else if !Durations(rows, "Start time") then NotADuration("Start time")
    else if "End time" !in columns then
      assert FirstAbsent(columns, 5);
      MissingColumn("End time")
    else if !Durations(rows, "End time") then NotADuration("End time")
    else if rows == [] && !ObjectColumn(table, "Start time") then NotJoinable("Time_Start")
    else if "Title" !in columns then
      assert FirstAbsent(columns, 6);
      MissingColumn("Title")
    else
      assert FirstAbsent(columns, 7);
      MissingColumn("Room location")
  }

  /** The first thing that goes wrong in `main` when it is not runnable. */
  function FirstFault(table: Table, now: Instant, lib: Lib): Fault
    requires !Runnable(table, now, lib)
  {
    if Filterable(table, lib) then LateFault(table, Candidates(table, now, lib)) else EarlyFault(table, lib)
  }

  /** The fault `main` reports names the first required column missing, a date column that
      does not convert, a tag column that is not text, or a time column holding a value that
      is not a duration in some row that passed the filter. */
  lemma FirstFaultSpec(table: Table, now: Instant, lib: Lib)
    requires !Runnable(table, now, lib)
    ensures var f := FirstFault(table, now, lib);
      && (f.MissingColumn? ==> exists k :: FirstAbsent(table.columns, k) && f.column == REQUIRED_COLUMNS[k])
      && (f.UnparseableDate? ==>
            || (f.column == "Start date" && !Convertible(table, "Start date", lib))
            || (f.column == "End date" && !Convertible(ConvertColumn(table, "Start date", lib), "End date", lib)))
      && (f.NotText? ==> f.column == "Tag(s)" && !TextColumn(Prepared(table, lib), "Tag(s)"))
      && (f.NotADuration? ==>
            f.column in ["Start time", "End time"] && !Durations(Candidates(table, now, lib), f.column))
      && (f.NotJoinable? ==>
            f.column == "Time_Start" && Candidates(table, now, lib) == [] && !ObjectColumn(table, "Start time"))
  {
  }

  /** A run whose filter keeps no row, with every column there, writes the empty snapshot
      exactly when the start-time column as read has dtype `object`, and otherwise stops at
      the time display. */
  lemma EmptySelection(table: Table, now: Instant, lib: Lib)
    requires Filterable(table, lib) && Candidates(table, now, lib) == []
    requires forall c :: c in REQUIRED_COLUMNS ==> c in table.columns
    ensures Runnable(table, now, lib) <==> ObjectColumn(table, "Start time")
    ensures !ObjectColumn(table, "Start time") ==> FirstFault(table, now, lib) == NotJoinable("Time_Start")
  {
    var rows := Candidates(table, now, lib);
    assert Durations(rows, "Start time") && Durations(rows, "End time");
    assert Completable(table, rows) <==> ObjectColumn(table, "Start time");
    var columns := table.columns;
    assert REQUIRED_COLUMNS[0] in columns && REQUIRED_COLUMNS[3] in columns && REQUIRED_COLUMNS[4] in columns;
    assert REQUIRED_COLUMNS[5] in columns && REQUIRED_COLUMNS[6] in columns;
  }

  /** `df['Description'].apply(extract_speaker)`. */
  method SpeakerColumn(rows: seq<Row>, lib: Lib) returns (cells: seq<Cell>)
    ensures |cells| == |rows|
    ensures forall i :: 0 <= i < |rows| ==> cells[i] == Text(SpeakerOf(CellOf(rows[i], "Description"), lib))
  {
    cells := [];
    for i := 0 to |rows|
      invariant |cells| == i
      invariant forall j :: 0 <= j < i ==> cells[j] == Text(SpeakerOf(CellOf(rows[j], "Description"), lib))
    {
      var speaker := ExtractSpeaker(CellOf(rows[i], "Description"), lib);
      cells := cells + [Text(speaker)];
    }
  }

  /** `df[name].apply(format_time)`, or `None` where a value has no `total_seconds`. */
  method TimeColumn(rows: seq<Row>, name: string) returns (cells: Option<seq<Cell>>)
    ensures cells.Some? <==> Durations(rows, name)
    ensures cells.Some? ==> |cells.value| == |rows|
    ensures cells.Some? ==> forall i :: 0 <= i < |rows| ==> cells.value[i] == Text(FormattedOf(CellOf(rows[i], name)))
  {
    var done: seq<Cell> := [];
    for i := 0 to |rows|
      invariant |done| == i
      invariant forall j :: 0 <= j < i ==> FormatTime(CellOf(rows[j], name)).Some?
      invariant forall j :: 0 <= j < i ==> done[j] == Text(FormattedOf(CellOf(rows[j], name)))
    {
      var formatted := FormatTime(CellOf(rows[i], name));
      if formatted.None? {
        return None;
      }
      done := done + [Text(formatted.value)];
    }
    return Some(done);
  }

  /** The row `main` builds from one candidate before the sort. */
  function Enriched(r: Row, lib: Lib): Row {
    var start := FormattedOf(CellOf(r, "Start time"));
    var end := FormattedOf(CellOf(r, "End time"));
    r["Speaker" := Text(SpeakerOf(CellOf(r, "Description"), lib))]
     ["Time_Start" := Text(start)]
     ["Time_End" := Text(end)]
     ["Time_Display" := Text(start + "-" + end)]
     ["Title_Clean" := Text(CleanTitle(CellOf(r, "Title"), lib))]
     ["Date_Display" := Text(lib.dayName(DayOf(StampOf(CellOf(r, "Start date")))))]
  }

  function EnrichAll(rows: seq<Row>, lib: Lib): (r: seq<Row>)
    ensures |r| == |rows|
    ensures forall i :: 0 <= i < |rows| ==> r[i] == Enriched(rows[i], lib)
  {
    seq(|rows|, i requires 0 <= i < |rows| => Enriched(rows[i], lib))
  }

  /** The added columns leave the sort key alone. */
  lemma EnrichedKey(r: Row, lib: Lib)
    ensures RowKey(Enriched(r, lib)) == RowKey(r)
  {
  }

  lemma EnrichCons(x: Row, s: seq<Row>, lib: Lib)
    ensures EnrichAll([x] + s, lib) == [Enriched(x, lib)] + EnrichAll(s, lib)
  {
    var l, r := EnrichAll([x] + s, lib), [Enriched(x, lib)] + EnrichAll(s, lib);
    forall i | 0 <= i < |l| ensures l[i] == r[i] {
      if i > 0 {
        assert ([x] + s)[i] == s[i - 1];
      }
    }
  }

  /** Inserting an enriched row among enriched rows is enriching after the insertion. */
  lemma {:induction false} InsertEnriched(x: Row, s: seq<Row>, lib: Lib)
    ensures Insert(Enriched(x, lib), EnrichAll(s, lib)) == EnrichAll(Insert(x, s), lib)
  {
    if s == [] || KeyLe(RowKey(x), RowKey(s[0])) {
      EnrichedKey(x, lib);
      EnrichCons(x, s, lib);
      if s != [] {
        EnrichedKey(s[0], lib);
      }
    } else {
      InsertEnriched(x, s[1..], lib);
      InsertEnrichedLater(x, s, lib);
    }
  }

  /** The step of `InsertEnriched` where the new row goes past the first one. */
  lemma InsertEnrichedLater(x: Row, s: seq<Row>, lib: Lib)
    requires s != [] && !KeyLe(RowKey(x), RowKey(s[0]))
    requires Insert(Enriched(x, lib), EnrichAll(s[1..], lib)) == EnrichAll(Insert(x, s[1..]), lib)
    ensures Insert(Enriched(x, lib), EnrichAll(s, lib)) == EnrichAll(Insert(x, s), lib)
  {
    var e := EnrichAll(s, lib);
    EnrichedKey(x, lib);
    EnrichedKey(s[0], lib);
    EnrichTail(s, lib);
    assert Insert(Enriched(x, lib), e) == [e[0]] + Insert(Enriched(x, lib), e[1..]);
    EnrichCons(s[0], Insert(x, s[1..]), lib);
  }

  lemma EnrichTail(s: seq<Row>, lib: Lib)
    requires s != []
    ensures EnrichAll(s, lib)[0] == Enriched(s[0], lib)
    ensures EnrichAll(s, lib)[1..] == EnrichAll(s[1..], lib)
  {
    var e, t := EnrichAll(s, lib)[1..], EnrichAll(s[1..], lib);
    forall i | 0 <= i < |t| ensures e[i] == t[i] {
      assert s[1..][i] == s[i + 1];
    }
  }

  /** Sorting the enriched rows gives the enriched rows of the sorted candidates: adding the
      columns before the sort, as `main` does, changes nothing about the order. */
  lemma {:induction false} SortEnriched(s: seq<Row>, lib: Lib)
    ensures SortRows(EnrichAll(s, lib)) == EnrichAll(SortRows(s), lib)
  {
    if s != [] {
      SortEnriched(s[1..], lib);
      EnrichCons(s[0], s[1..], lib);
      assert s == [s[0]] + s[1..];
      var e := EnrichAll(s, lib);
      assert e[0] == Enriched(s[0], lib) && e[1..] == EnrichAll(s[1..], lib);
      InsertEnriched(s[0], SortRows(s[1..]), lib);
    }
  }

  lemma ProjectEnrichAll(rows: seq<Row>, lib: Lib)
    ensures Projected(EnrichAll(rows, lib)) == DisplayAll(rows, lib)
  {
    forall i | 0 <= i < |rows| ensures Projected(EnrichAll(rows, lib))[i] == DisplayAll(rows, lib)[i] {
      ProjectEnriched(rows[i], lib);
    }
  }

  /** Selecting and renaming the columns of an enriched row gives its display record. */
  lemma ProjectEnriched(r: Row, lib: Lib)
    ensures Project(Enriched(r, lib)) == Display(r, lib)
  {
  }

  function Projected(rows: seq<Row>): (r: seq<Seminar>)
    ensures |r| == |rows|
    ensures forall i :: 0 <= i < |rows| ==> r[i] == Project(rows[i])
  {
    seq(|rows|, i requires 0 <= i < |rows| => Project(rows[i]))
  }

  /** Sorting before the projection yields the same records, counted with multiplicity. */
  lemma {:induction false} ProjectedSortPermutes(s: seq<Row>)
    ensures multiset(Projected(SortRows(s))) == multiset(Projected(s))
  {
    if s != [] {
      ProjectedSortPermutes(s[1..]);
      ProjectedInsertPermutes(s[0], SortRows(s[1..]));
      ProjectedCons(s[0], s[1..]);
      assert s == [s[0]] + s[1..];
    }
  }

  lemma {:induction false} ProjectedInsertPermutes(x: Row, s: seq<Row>)
    ensures multiset(Projected(Insert(x, s))) == multiset(Projected(s)) + multiset{Project(x)}
  {
    if s == [] || KeyLe(RowKey(x), RowKey(s[0])) {
      ProjectedCons(x, s);
    } else {
      var rest := Insert(x, s[1..]);
      ProjectedInsertPermutes(x, s[1..]);
      ProjectedCons(s[0], rest);
      ProjectedCons(s[0], s[1..]);
      assert s == [s[0]] + s[1..];
    }
  }

  /** The projection of a row put in front is the row's record put in front. */
  lemma ProjectedCons(x: Row, s: seq<Row>)
    ensures Projected([x] + s) == [Project(x)] + Projected(s)
  {
    var l, r := Projected([x] + s), [Project(x)] + Projected(s);
    forall i | 0 <= i < |l| ensures l[i] == r[i] {
      if i > 0 {
        assert ([x] + s)[i] == s[i - 1];
      }
    }
  }

  /** The first part of `main`: read the date columns, convert them, and apply the filter
      mask. */
  method SelectRows(table: Table, now: Instant, lib: Lib) returns (rows: seq<Row>, fault: Option<Fault>)
    ensures fault.None? <==> Filterable(table, lib)
    ensures fault.Some? ==> !Filterable(table, lib) && fault.value == EarlyFault(table, lib)
    ensures fault.None? ==> rows == Candidates(table, now, lib)
  {
    // Every required column is one of the table's own; the columns added on the way are
    // never required ones, so each check reads the original column list.
    var columns := table.columns;
    rows := [];
    if "Start date" !in columns {
      return rows, Some(MissingColumn("Start date"));
    }
    if !Convertible(table, "Start date", lib) {
      return rows, Some(UnparseableDate("Start date"));
    }
    var df := ConvertColumn(table, "Start date", lib);
    if "End date" !in columns {
      return rows, Some(MissingColumn("End date"));
    }
    if !Convertible(df, "End date", lib) {
      return rows, Some(UnparseableDate("End date"));
    }
    df := ConvertColumn(df, "End date", lib);
    if "Tag(s)" !in columns {
      return rows, Some(MissingColumn("Tag(s)"));
    }
    if !TextColumn(df, "Tag(s)") {
      return rows, Some(NotText("Tag(s)"));
    }
    return Where(df.rows, now), None;
  }

  /** The middle part of `main`: the speaker, time and title columns added to the rows that
      passed the filter. Every column is computed from the filtered rows' own cells, which
      the columns added before it leave untouched. */
  method AddColumns(table: Table, rows: seq<Row>, lib: Lib) returns (frame: seq<Row>, fault: Option<Fault>)
    requires "Start date" in table.columns && "End date" in table.columns && "Tag(s)" in table.columns
    ensures fault.Some? ==> !Completable(table, rows) && fault.value == LateFault(table, rows)
    ensures fault.None? ==>
      && (forall j :: 0 <= j < 7 ==> REQUIRED_COLUMNS[j] in table.columns)
      && Durations(rows, "Start time") && Durations(rows, "End time")
      && (rows == [] ==> ObjectColumn(table, "Start time"))
    ensures fault.None? ==> frame == EnrichAll(rows, lib)
  {
    var columns := table.columns;
    frame := rows;
    if "Description" !in columns {
      return frame, Some(MissingColumn("Description"));
    }
    var speakers := SpeakerColumn(rows, lib);
    frame := WithColumn(frame, "Speaker", speakers);
    if "Start time" !in columns {
      return frame, Some(MissingColumn("Start time"));
    }
    var starts := TimeColumn(rows, "Start time");
    if starts.None? {
      return frame, Some(NotADuration("Start time"));
    }
    frame := WithColumn(frame, "Time_Start", starts.value);
    if "End time" !in columns {
      return frame, Some(MissingColumn("End time"));
    }
    var ends := TimeColumn(rows, "End time");
    if ends.None? {
      return frame, Some(NotADuration("End time"));
    }
    frame := WithColumn(frame, "Time_End", ends.value);
    if rows == [] && !ObjectColumn(table, "Start time") {
      return frame, Some(NotJoinable("Time_Start"));
    }
    frame := WithColumn(frame, "Time_Display", seq(|rows|, i requires 0 <= i < |rows| =>
      Text(TextOf(starts.value[i]) + "-" + TextOf(ends.value[i]))));
    if "Title" !in columns {
      return frame, Some(MissingColumn("Title"));
    }
    frame := WithColumn(frame, "Title_Clean", seq(|rows|, i requires 0 <= i < |rows| =>
      Text(CleanTitle(CellOf(rows[i], "Title"), lib))));
    frame := WithColumn(frame, "Date_Display", seq(|rows|, i requires 0 <= i < |rows| =>
      Text(lib.dayName(DayOf(StampOf(CellOf(rows[i], "Start date")))))));
    return frame, None;
  }

  /** `main`, from the first sheet of the newest export to the snapshot written: `table` is
      that sheet and `now` the one clock reading. The snapshot holds one record per row
      of the current window tagged for the website and not yet started, ordered by start
      date and then start time with ties in source order; a run that raises writes nothing
      and reports the first fault it meets. */
  method FilterExport(table: Table, now: Instant, lib: Lib) returns (run: Run)
    ensures run.Wrote? <==> Runnable(table, now, lib)
    ensures run.Aborted? ==> !Runnable(table, now, lib) && run.fault == FirstFault(table, now, lib)
    ensures run.Wrote? ==> run.rows == DisplayAll(SortRows(Candidates(table, now, lib)), lib)
    ensures run.Wrote? ==> multiset(run.rows) == multiset(DisplayAll(Candidates(table, now, lib), lib))
    ensures run.Wrote? ==> forall i, j :: 0 <= i < j < |run.rows| ==>
      OptLe(KeyOf(run.rows[i].date), KeyOf(run.rows[j].date))
  {
    var filtered, early := SelectRows(table, now, lib);
    if early.Some? {
      return Aborted(early.value);
    }
    var enriched, late := AddColumns(table, filtered, lib);
    if late.Some? {
      return Aborted(late.value);
    }
    var sorted := SortRows(enriched);
    if "Room location" !in table.columns {
      assert FirstAbsent(table.columns, 7);
      return Aborted(MissingColumn("Room location"));
    }
    run := Wrote(Projected(sorted));
    SortRowsSpec(enriched);
    ProjectedSortPermutes(enriched);
    ProjectEnrichAll(filtered, lib);
    SortEnriched(filtered, lib);
    ProjectEnrichAll(SortRows(filtered), lib);
  }
}
