/**
  The time-cell parser of main.js (`rawToTime`).

  The source applies the unanchored regular expression
  `(\(?)([0-9]{1,2})[:.]?([0-9]{0,2})([a-z ]*)` to the raw cell and formats
  the groups.  Because everything after the first digit is optional and
  greedy, the leftmost match never backtracks: it starts at the first digit
  (or at the `(` right before it), and each group takes as many characters
  as it can.  `MatchCell` computes the four groups by that scan.
*/
module TimeParser {
  import opened Wrappers

  predicate IsDigit(c: char) { '0' <= c <= '9' }

  /** The character class `[a-z ]` of the footnote group. */
  predicate IsFootnoteChar(c: char) { ('a' <= c <= 'z') || c == ' ' }

  predicate HasDigit(s: string) { exists i :: 0 <= i < |s| && IsDigit(s[i]) }

  predicate AllDigits(s: string) { forall i :: 0 <= i < |s| ==> IsDigit(s[i]) }

  predicate AllFootnote(s: string) { forall i :: 0 <= i < |s| ==> IsFootnoteChar(s[i]) }

  /** The parsed cell (the object `rawToTime` returns).  For an empty cell
      the source has no `isConnection` key; it reads as false. */
  datatype Time = Time(
    isEmpty: bool,
    isConnection: bool,
    h: Option<nat>,
    m: Option<nat>,
    vis: string,
    output: string)

  /** The four capture groups of a successful match. */
  datatype Match = Match(connection: bool, hours: string, minutes: string, footnote: string)

  /** Index of the first digit at or after `i`. */
  function FirstDigitFrom(s: string, i: nat): (r: Option<nat>)
    requires i <= |s|
    ensures r.Some? ==> i <= r.value < |s| && IsDigit(s[r.value])
    ensures r.Some? ==> forall j :: i <= j < r.value ==> !IsDigit(s[j])
    ensures r.None? ==> forall j :: i <= j < |s| ==> !IsDigit(s[j])
    decreases |s| - i
  {
    if i == |s| then None
    else if IsDigit(s[i]) then Some(i)
    else FirstDigitFrom(s, i + 1)
  }

  /** Length of the greedy run of at most `max` digits starting at `i`. */
  function DigitRun(s: string, i: nat, max: nat): (n: nat)
    requires i <= |s|
    ensures n <= max && i + n <= |s|
    ensures forall k :: i <= k < i + n ==> IsDigit(s[k])
    ensures n < max && i + n < |s| ==> !IsDigit(s[i + n])
    decreases max
  {
    if max == 0 || i == |s| || !IsDigit(s[i]) then 0
    else 1 + DigitRun(s, i + 1, max - 1)
  }

  /** Length of the greedy run of footnote characters starting at `i`. */
  function FootnoteRun(s: string, i: nat): (n: nat)
    requires i <= |s|
    ensures i + n <= |s|
    ensures forall k :: i <= k < i + n ==> IsFootnoteChar(s[k])
    ensures i + n < |s| ==> !IsFootnoteChar(s[i + n])
    decreases |s| - i
  {
    if i == |s| || !IsFootnoteChar(s[i]) then 0
    else 1 + FootnoteRun(s, i + 1)
  }

  /** The length of the optional separator `[:.]?` at position `p`. */
  function SepLength(s: string, p: nat): (n: nat)
    ensures n <= 1 && (n == 1 <==> p < |s| && (s[p] == ':' || s[p] == '.'))
  {
    if p < |s| && (s[p] == ':' || s[p] == '.') then 1 else 0
  }

  /** The boundaries of a match whose hours start at `d`: hours `d..p`, the
      optional separator `p..q`, minutes `q..f`, footnote `f..e`. */
  datatype Span = Span(p: nat, q: nat, f: nat, e: nat)

  /** The greedy boundaries: each group is as long as the pattern allows,
      the hours and the minutes stopping at two digits or at a non-digit,
      the footnote at the first character outside `[a-z ]`. */
  function SpanAt(s: string, d: nat): (sp: Span)
    requires d < |s| && IsDigit(s[d])
    ensures d < sp.p <= d + 2 && sp.q == sp.p + SepLength(s, sp.p)
    ensures sp.q <= sp.f <= sp.q + 2 && sp.f <= sp.e <= |s|
    ensures forall k :: d <= k < sp.p ==> IsDigit(s[k])
    ensures forall k :: sp.q <= k < sp.f ==> IsDigit(s[k])
    ensures forall k :: sp.f <= k < sp.e ==> IsFootnoteChar(s[k])
    ensures sp.p < d + 2 && sp.p < |s| ==> !IsDigit(s[sp.p])
    ensures sp.f < sp.q + 2 && sp.f < |s| ==> !IsDigit(s[sp.f])
    ensures sp.e < |s| ==> !IsFootnoteChar(s[sp.e])
  {
    var p := d + DigitRun(s, d, 2);
    var q := p + SepLength(s, p);
    var f := q + DigitRun(s, q, 2);
    Span(p, q, f, f + FootnoteRun(s, f))
  }

  /** The groups of the match that takes its hours from position `d`. */
  function MatchAt(s: string, d: nat): (g: Match)
    requires d < |s| && IsDigit(s[d])
    ensures 1 <= |g.hours| <= 2 && AllDigits(g.hours)
    ensures |g.minutes| <= 2 && AllDigits(g.minutes)
    ensures AllFootnote(g.footnote)
  {
    var sp := SpanAt(s, d);
    DigitSlice(s, d, sp.p);
    DigitSlice(s, sp.q, sp.f);
    FootnoteSlice(s, sp.f, sp.e);
    Match(d > 0 && s[d - 1] == '(', s[d..sp.p], s[sp.q..sp.f], s[sp.f..sp.e])
  }

  lemma DigitSlice(s: string, lo: nat, hi: nat)
    requires lo <= hi <= |s| && forall k :: lo <= k < hi ==> IsDigit(s[k])
    ensures AllDigits(s[lo..hi])
  {
    forall k | 0 <= k < hi - lo ensures IsDigit(s[lo..hi][k]) {
      assert s[lo..hi][k] == s[lo + k];
    }
  }

  lemma FootnoteSlice(s: string, lo: nat, hi: nat)
    requires lo <= hi <= |s| && forall k :: lo <= k < hi ==> IsFootnoteChar(s[k])
    ensures AllFootnote(s[lo..hi])
  {
    forall k | 0 <= k < hi - lo ensures IsFootnoteChar(s[lo..hi][k]) {
      assert s[lo..hi][k] == s[lo + k];
    }
  }

  /** The leftmost match of the cell pattern, as its four groups. */
  function MatchCell(s: string): (r: Option<Match>)
    ensures r.None? <==> !HasDigit(s)
    ensures r.Some? ==> 1 <= |r.value.hours| <= 2 && AllDigits(r.value.hours)
    ensures r.Some? ==> |r.value.minutes| <= 2 && AllDigits(r.value.minutes)
    ensures r.Some? ==> AllFootnote(r.value.footnote)
  {
    match FirstDigitFrom(s, 0)
    case None => None
    case Some(d) => Some(MatchAt(s, d))
  }

  /** `String.prototype.padStart(2, '0')`. */
  function Pad2(s: string): (r: string)
    requires |s| <= 2
    ensures |r| == 2
    ensures r[2 - |s|..] == s
    ensures forall i :: 0 <= i < 2 - |s| ==> r[i] == '0'
    ensures AllDigits(s) ==> AllDigits(r)
  {
    if |s| == 2 then s else if |s| == 1 then "0" + s else "00"
  }

  function DigitValue(c: char): (v: nat)
    requires IsDigit(c)
    ensures v <= 9
  {
    (c as int) - ('0' as int)
  }

  /** `parseInt(s, 10)` of a two-digit decimal string. */
  function ParseTwoDigits(s: string): (v: nat)
    requires |s| == 2 && AllDigits(s)
    ensures v <= 99
  {
    10 * DigitValue(s[0]) + DigitValue(s[1])
  }

  /** The value of a decimal digit string, read most significant digit
      first; the empty string reads as 0, as the padded `"00"` does. */
  function DecimalValue(s: string): nat
    requires AllDigits(s)
  {
    if s == [] then 0 else 10 * DecimalValue(s[..|s| - 1]) + DigitValue(s[|s| - 1])
  }

  /** Parsing a padded group gives the group's own decimal value. */
  lemma PaddedValue(s: string)
    requires |s| <= 2 && AllDigits(s)
    ensures ParseTwoDigits(Pad2(s)) == DecimalValue(s)
  {
    if |s| == 2 {
      assert s[..1][..0] == [];
    } else if |s| == 1 {
      assert s[..0] == [];
      assert Pad2(s) == "0" + s;
    }
  }

  const EmptyVis: string := "    "
  const FootnoteOpen: string := "<CharStyle:TimeFootnote>"
  const FootnoteClose: string := "<CharStyle:None>"

  /** The print rendering: the four digits, then the footnote in style tags. */
  function OutputText(hours: string, minutes: string, footnote: string): string
  {
    hours + minutes + (if footnote != "" then FootnoteOpen + footnote + FootnoteClose else "")
  }

  /** The time built from the groups of a match. */
  function FromMatch(g: Match): (t: Time)
    requires |g.hours| <= 2 && AllDigits(g.hours) && |g.minutes| <= 2 && AllDigits(g.minutes)
    ensures !t.isEmpty && t.isConnection == g.connection
    ensures t.h.Some? && t.h.value <= 99 && t.m.Some? && t.m.value <= 99
  {
    var hours := Pad2(g.hours);
    var minutes := Pad2(g.minutes);
    Time(false, g.connection, Some(ParseTwoDigits(hours)), Some(ParseTwoDigits(minutes)),
         hours + ":" + minutes + g.footnote,
         OutputText(hours, minutes, g.footnote))
  }

  /** `rawToTime`: parse one raw cell.  Never fails; a cell without a digit is empty. */
  function RawToTime(raw: string): (t: Time)
    ensures t.isEmpty <==> !HasDigit(raw)
    ensures t.isEmpty ==> t == Time(true, false, None, None, EmptyVis, "")
    ensures !t.isEmpty ==> t.h.Some? && t.h.value <= 99 && t.m.Some? && t.m.value <= 99
    ensures t.vis != ""
  {
    match MatchCell(raw)
    case None => Time(true, false, None, None, EmptyVis, "")
    case Some(g) => FromMatch(g)
  }

  /** `d` is the position of the first digit of `s`. */
  predicate IsFirstDigit(s: string, d: nat)
  {
    d < |s| && IsDigit(s[d]) && forall j :: 0 <= j < d ==> !IsDigit(s[j])
  }

  /** Where the groups `g` lie in the cell `s`.  From the first digit `d`
      on, the cell reads: the hours, then one separator character exactly
      when the next character is `:` or `.`, then the minutes, then the
      footnote, then the rest.  Each group is as long as the pattern allows:
      the hours and the minutes stop at two digits or at a non-digit, the
      footnote at the first character outside `[a-z ]`. */
  predicate GroupsAt(s: string, d: nat, g: Match)
  {
    var p := d + |g.hours|;
    var q := p + SepLength(s, p);
    var f := q + |g.minutes|;
    var e := f + |g.footnote|;
    && d <= p <= q <= f <= e <= |s|
    && s[d..] == g.hours + s[p..q] + g.minutes + g.footnote + s[e..]
    && (|g.hours| < 2 && p < |s| ==> !IsDigit(s[p]))
    && (|g.minutes| < 2 && f < |s| ==> !IsDigit(s[f]))
    && (e < |s| ==> !IsFootnoteChar(s[e]))
  }

  /** The groups of the leftmost match lie in the cell as `GroupsAt` says, and
      the match starts with a bracket exactly when one precedes the first digit. */
  lemma CellGroups(raw: string, d: nat, g: Match)
    requires IsFirstDigit(raw, d) && MatchCell(raw) == Some(g)
    ensures GroupsAt(raw, d, g)
    ensures g.connection <==> d > 0 && raw[d - 1] == '('
  {
    assert FirstDigitFrom(raw, 0) == Some(d);
    MatchAtGroups(raw, d);
  }

  lemma MatchAtGroups(s: string, d: nat)
    requires d < |s| && IsDigit(s[d])
    ensures GroupsAt(s, d, MatchAt(s, d))
  {
    var sp := SpanAt(s, d);
    var c := d > 0 && s[d - 1] == '(';
    SpanGroups(s, d, sp, c);
    assert MatchAt(s, d) == Match(c, s[d..sp.p], s[sp.q..sp.f], s[sp.f..sp.e]);
  }

  /** The groups sliced at a greedy span lie in the cell as `GroupsAt` says. */
  lemma SpanGroups(s: string, d: nat, sp: Span, c: bool)
    requires d < sp.p <= d + 2 && sp.q == sp.p + SepLength(s, sp.p)
    requires sp.q <= sp.f <= sp.q + 2 && sp.f <= sp.e <= |s|
    requires sp.p < d + 2 && sp.p < |s| ==> !IsDigit(s[sp.p])
    requires sp.f < sp.q + 2 && sp.f < |s| ==> !IsDigit(s[sp.f])
    requires sp.e < |s| ==> !IsFootnoteChar(s[sp.e])
    ensures GroupsAt(s, d, Match(c, s[d..sp.p], s[sp.q..sp.f], s[sp.f..sp.e]))
  {
    SplitFive(s, d, sp.p, sp.q, sp.f, sp.e);
  }

  lemma SplitFive(s: string, a: nat, b: nat, c: nat, d: nat, e: nat)
    requires a <= b <= c <= d <= e <= |s|
    ensures s[a..] == s[a..b] + s[b..c] + s[c..d] + s[d..e] + s[e..]
  {
    assert s[a..] == s[a..b] + s[b..];
    assert s[b..] == s[b..c] + s[c..];
    assert s[c..] == s[c..d] + s[d..];
    assert s[d..] == s[d..e] + s[e..];
  }

  /** The numbers of a non-empty cell are the values of its groups: `h` is
      the value of the hour digits and `m` that of the minute digits, 0 when
      the cell has none; `vis` is both groups padded to two digits with a
      colon between them, then the footnote. */
  lemma CellValues(raw: string, d: nat, g: Match)
    requires IsFirstDigit(raw, d) && MatchCell(raw) == Some(g)
    ensures var t := RawToTime(raw);
      && !t.isEmpty
      && t.h == Some(DecimalValue(g.hours))
      && t.m == Some(DecimalValue(g.minutes))
      && (g.minutes == "" ==> t.m == Some(0))
      && t.vis == Pad2(g.hours) + ":" + Pad2(g.minutes) + g.footnote
  {
    PaddedValue(g.hours);
    PaddedValue(g.minutes);
  }

  /** A non-empty cell is a connection exactly when the character just before
      its first digit is an opening bracket. */
  lemma ConnectionIffBracket(raw: string, d: nat)
    requires IsFirstDigit(raw, d)
    ensures !RawToTime(raw).isEmpty
    ensures RawToTime(raw).isConnection <==> d > 0 && raw[d - 1] == '('
  {
    assert FirstDigitFrom(raw, 0) == Some(d);
  }

  /** The shape of a non-empty rendering: two hour digits, a colon, two minute
      digits and the footnote; `h` and `m` are the values of those digits, and
      `output` is the four digits followed by the footnote in style tags only
      when there is one. */
  lemma RenderingShape(raw: string)
    requires HasDigit(raw)
    ensures var t := RawToTime(raw);
      && |t.vis| >= 5
      && AllDigits(t.vis[..2]) && t.vis[2] == ':' && AllDigits(t.vis[3..5])
      && AllFootnote(t.vis[5..])
      && t.h == Some(ParseTwoDigits(t.vis[..2]))
      && t.m == Some(ParseTwoDigits(t.vis[3..5]))
      && t.output == t.vis[..2] + t.vis[3..5]
           + (if t.vis[5..] == "" then "" else FootnoteOpen + t.vis[5..] + FootnoteClose)
  {
    var g := MatchCell(raw).value;
    var hours, minutes := Pad2(g.hours), Pad2(g.minutes);
    var v := hours + ":" + minutes + g.footnote;
    assert RawToTime(raw).vis == v;
    assert v[..2] == hours && v[3..5] == minutes && v[5..] == g.footnote;
  }

  lemma PadExamples()
    ensures Pad2("9") == "09" && Pad2("05") == "05" && Pad2("7") == "07" && Pad2("") == "00"
  {}

  lemma ParseExamples()
    ensures ParseTwoDigits("09") == 9 && ParseTwoDigits("05") == 5
    ensures ParseTwoDigits("07") == 7 && ParseTwoDigits("00") == 0
  {}

  /** The groups of "7": hours only. */
  lemma MatchSevenExample()
    ensures MatchCell("7") == Some(Match(false, "7", "", ""))
  {
    var s := "7";
    assert FirstDigitFrom(s, 0) == Some(0);
    assert DigitRun(s, 1, 1) == 0;
    assert DigitRun(s, 0, 2) == 1;
    assert DigitRun(s, 1, 2) == 0;
    assert FootnoteRun(s, 1) == 0;
    assert s[0..1] == "7" && s[1..1] == "";
  }

  /** A cell without minute digits reads as minute zero: "7" is 07:00. */
  lemma MissingMinutesAreZero(raw: string)
    requires raw == "7"
    ensures RawToTime(raw) == Time(false, false, Some(7), Some(0), "07:00", "0700")
  {
    var g := Match(false, "7", "", "");
    MatchSevenExample();
    ParsedFromMatch(raw, g);
    SevenTime(g);
  }

  lemma SevenTime(g: Match)
    requires g == Match(false, "7", "", "")
    ensures FromMatch(g) == Time(false, false, Some(7), Some(0), "07:00", "0700")
  {
    PadExamples();
    ParseExamples();
    var t := FromMatch(g);
    assert t.vis == "07" + ":" + "00" + "";
    assert t.output == "07" + "00" + "";
  }

  lemma MatchBracketedExample(s: string)
    requires s == "(9.05a"
    ensures MatchCell(s) == Some(Match(true, "9", "05", "a"))
  {
    assert !IsDigit(s[0]) && IsDigit(s[1]);
    assert FirstDigitFrom(s, 1) == Some(1);
    assert FirstDigitFrom(s, 0) == Some(1);
    assert !IsDigit(s[2]);
    assert DigitRun(s, 2, 1) == 0;
    assert DigitRun(s, 1, 2) == 1;
    assert s[2] == '.';
    assert DigitRun(s, 5, 0) == 0;
    assert DigitRun(s, 4, 1) == 1;
    assert DigitRun(s, 3, 2) == 2;
    assert FootnoteRun(s, 6) == 0;
    assert FootnoteRun(s, 5) == 1;
    assert s[1..2] == "9" && s[3..5] == "05" && s[5..6] == "a";
    assert MatchAt(s, 1) == Match(true, "9", "05", "a");
  }

  /** A bracketed time with a separator and a footnote. */
  lemma ConnectionWithFootnote(raw: string)
    requires raw == "(9.05a"
    ensures var t := RawToTime(raw);
      && !t.isEmpty && t.isConnection && t.h == Some(9) && t.m == Some(5)
      && t.vis == "09:05a"
      && t.output == "0905" + FootnoteOpen + "a" + FootnoteClose
  {
    var g := Match(true, "9", "05", "a");
    MatchBracketedExample(raw);
    ParsedFromMatch(raw, g);
    BracketedTime(g);
  }

  /** A cell whose match has groups `g` parses to the time built from `g`. */
  lemma ParsedFromMatch(raw: string, g: Match)
    requires MatchCell(raw) == Some(g)
    ensures |g.hours| <= 2 && AllDigits(g.hours) && |g.minutes| <= 2 && AllDigits(g.minutes)
    ensures RawToTime(raw) == FromMatch(g)
  {}

  lemma BracketedTime(g: Match)
    requires g == Match(true, "9", "05", "a")
    ensures FromMatch(g) == Time(false, true, Some(9), Some(5), "09:05a", "0905" + FootnoteOpen + "a" + FootnoteClose)
  {
    PadExamples();
    ParseExamples();
    var t := FromMatch(g);
    assert t.vis == "09" + ":" + "05" + "a";
    assert t.output == "09" + "05" + (FootnoteOpen + "a" + FootnoteClose);
  }

  lemma {:induction false} FootnoteRunToEnd(s: string, i: nat)
    requires i <= |s| && AllFootnote(s[i..])
    ensures FootnoteRun(s, i) == |s| - i
    decreases |s| - i
  {
    if i < |s| {
      assert IsFootnoteChar(s[i..][0]);
      assert s[i + 1..] == s[i..][1..];
      FootnoteRunToEnd(s, i + 1);
    }
  }

  /** The match of a rendering `HH:MM<footnote>` has exactly those groups. */
  lemma MatchRendering(v: string)
    requires |v| >= 5 && AllDigits(v[..2]) && v[2] == ':' && AllDigits(v[3..5])
    requires AllFootnote(v[5..])
    ensures MatchCell(v) == Some(Match(false, v[..2], v[3..5], v[5..]))
  {
    assert IsDigit(v[..2][0]) && IsDigit(v[..2][1]);
    assert IsDigit(v[3..5][0]) && IsDigit(v[3..5][1]);
    assert FirstDigitFrom(v, 0) == Some(0);
    assert DigitRun(v, 2, 0) == 0;
    assert DigitRun(v, 1, 1) == 1;
    assert DigitRun(v, 0, 2) == 2;
    assert DigitRun(v, 5, 0) == 0;
    assert DigitRun(v, 4, 1) == 1;
    assert DigitRun(v, 3, 2) == 2;
    FootnoteRunToEnd(v, 5);
    assert v[5..5 + (|v| - 5)] == v[5..];
  }

  /** Re-parsing the rendering of a non-empty cell gives back the same time,
      rendering and print text; only the connection mark is lost, because the
      rendering drops the bracket. */
  lemma ReparseVisible(raw: string)
    requires HasDigit(raw)
    ensures var t := RawToTime(raw);
      RawToTime(t.vis) == t.(isConnection := false)
  {
    var t := RawToTime(raw);
    RenderingShape(raw);
    var v := t.vis;
    MatchRendering(v);
    RenderedTime(v);
  }

  /** The time built from the groups of a rendering is that rendering. */
  lemma RenderedTime(v: string)
    requires |v| >= 5 && AllDigits(v[..2]) && v[2] == ':' && AllDigits(v[3..5])
    ensures FromMatch(Match(false, v[..2], v[3..5], v[5..]))
      == Time(false, false, Some(ParseTwoDigits(v[..2])), Some(ParseTwoDigits(v[3..5])), v,
              OutputText(v[..2], v[3..5], v[5..]))
  {
    assert v[..2] + ":" + v[3..5] + v[5..] == v;
  }
}
