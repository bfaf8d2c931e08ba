/** The `"COLOR - DIGITS"` key of a line item (app.py:23-46): a colour word taken
    from the material description and the trailing digits of the style code. */
module ColorStyle {
  import opened Wrappers
  import opened Text

  const MIN_COLOR_LENGTH: nat := 3
  const UNKNOWN_COLOR := "UNKNOWN"
  const KEY_SEPARATOR := " - "

  /** A piece of a description that names a colour: after stripping whitespace it
      is alphabetic and at least three characters long. */
  predicate IsColorWord(part: string) {
    var clean := Strip(part);
    IsAlpha(clean) && |clean| >= MIN_COLOR_LENGTH
  }

  /** The index of the last colour word, if any. */
  function LastColorWord(parts: seq<string>): (r: Option<nat>)
    ensures r.Some? ==> r.value < |parts| && IsColorWord(parts[r.value])
    ensures r.Some? ==> forall j :: r.value < j < |parts| ==> !IsColorWord(parts[j])
    ensures r.None? ==> forall j :: 0 <= j < |parts| ==> !IsColorWord(parts[j])
  {
    if |parts| == 0 then None
    else if IsColorWord(parts[|parts| - 1]) then Some(|parts| - 1)
    else LastColorWord(parts[..|parts| - 1])
  }

  /** The index of the first colour word, if any. */
  function FirstColorWord(parts: seq<string>): (r: Option<nat>)
    ensures r.Some? ==> r.value < |parts| && IsColorWord(parts[r.value])
    ensures r.Some? ==> forall j :: 0 <= j < r.value ==> !IsColorWord(parts[j])
    ensures r.None? ==> forall j :: 0 <= j < |parts| ==> !IsColorWord(parts[j])
  {
    if |parts| == 0 then None
    else if IsColorWord(parts[0]) then Some(0)
    else match FirstColorWord(parts[1..])
      case Some(i) => Some(i + 1)
      case None => None
  }

  lemma LastColorWordAt(parts: seq<string>, i: nat)
    requires i < |parts| && IsColorWord(parts[i])
    requires forall j :: i < j < |parts| ==> !IsColorWord(parts[j])
    ensures LastColorWord(parts) == Some(i)
  {
  }

  lemma FirstColorWordAt(parts: seq<string>, k: nat)
    requires k < |parts| && IsColorWord(parts[k])
    requires forall j :: 0 <= j < k ==> !IsColorWord(parts[j])
    ensures FirstColorWord(parts) == Some(k)
  {
  }

  /** The colour `extract_color` derives from a material description; `None` is a
      missing cell. */
  function Color(desc: Option<string>): string {
    match desc
    case None => ""
    case Some(s) =>
      var parts := Split(s, '_');
      match LastColorWord(parts)
      case Some(i) => Upper(Strip(parts[i]))
      case None =>
        if ',' in s then
          var segments := Split(s, ',');
          match FirstColorWord(segments)
          case Some(k) => Upper(Strip(segments[k]))
          case None => UNKNOWN_COLOR
        else UNKNOWN_COLOR
  }

  /** `extract_color`: scan the `_`-parts from the back, then the `,`-segments from
      the front, returning at the first colour word. */
  method ExtractColor(desc: Option<string>) returns (color: string)
    ensures color == Color(desc)
  {
    if desc.None? {
      return "";
    }
    var s := desc.value;
    var parts := Split(s, '_');
    var i := |parts|;
    while i > 0
      invariant 0 <= i <= |parts|
      invariant forall j :: i <= j < |parts| ==> !IsColorWord(parts[j])
    {
      i := i - 1;
      var clean := Strip(parts[i]);
      if IsAlpha(clean) && |clean| >= MIN_COLOR_LENGTH {
        LastColorWordAt(parts, i);
        return Upper(clean);
      }
    }
    if ',' in s {
      var segments := Split(s, ',');
      for k := 0 to |segments|
        invariant forall j :: 0 <= j < k ==> !IsColorWord(segments[j])
      {
        var word := Strip(segments[k]);
        if IsAlpha(word) && |word| >= MIN_COLOR_LENGTH {
          FirstColorWordAt(segments, k);
          return Upper(word);
        }
      }
    }
    return UNKNOWN_COLOR;
  }

  /** A missing description gives the empty colour; any other description gives a
      word of at least three capital letters. */
  lemma ColorShape(desc: Option<string>)
    ensures desc.None? <==> Color(desc) == ""
    ensures desc.Some? ==> |Color(desc)| >= MIN_COLOR_LENGTH
    ensures forall i :: 0 <= i < |Color(desc)| ==> IsUpperLetter(Color(desc)[i])
  {
    if desc.Some? {
      var s := desc.value;
      var parts := Split(s, '_');
      match LastColorWord(parts)
      case Some(i) => UpperOfAlpha(Strip(parts[i]));
      case None =>
        if ',' in s {
          var segments := Split(s, ',');
          match FirstColorWord(segments)
          case Some(k) => UpperOfAlpha(Strip(segments[k]));
          case None =>
        }
    }
  }

  /** A string containing '_' is never a colour word. */
  lemma UnderscoreNotColorWord(s: string, m: nat)
    requires m < |s| && s[m] == '_'
    ensures !IsColorWord(s)
  {
    StripKeeps(s, m);
  }

  /** Without a comma the `,`-split is the whole description, which is a colour
      word only if it is also the only `_`-part. */
  lemma NoCommaNoSegmentWord(s: string)
    requires ',' !in s
    requires forall i :: 0 <= i < |Split(s, '_')| ==> !IsColorWord(Split(s, '_')[i])
    ensures forall k :: 0 <= k < |Split(s, ',')| ==> !IsColorWord(Split(s, ',')[k])
  {
    SplitWithoutSeparator(s, ',');
    if '_' in s {
      var m :| 0 <= m < |s| && s[m] == '_';
      UnderscoreNotColorWord(s, m);
    } else {
      SplitWithoutSeparator(s, '_');
      assert !IsColorWord(Split(s, '_')[0]);
    }
  }

  /** First priority: the last colour word among the `_`-parts, upper-cased. */
  lemma ColorFromLastPart(s: string, i: nat)
    requires i < |Split(s, '_')| && IsColorWord(Split(s, '_')[i])
    requires forall j :: i < j < |Split(s, '_')| ==> !IsColorWord(Split(s, '_')[j])
    ensures Color(Some(s)) == Upper(Strip(Split(s, '_')[i]))
  {
    LastColorWordAt(Split(s, '_'), i);
  }

  /** Second priority: with no colour word among the `_`-parts, the first colour word
      among the `,`-segments, upper-cased.  `extract_color`'s `',' in desc` test in front
      of this scan never changes the result. */
  lemma ColorFromFirstSegment(s: string, k: nat)
    requires forall i :: 0 <= i < |Split(s, '_')| ==> !IsColorWord(Split(s, '_')[i])
    requires k < |Split(s, ',')| && IsColorWord(Split(s, ',')[k])
    requires forall j :: 0 <= j < k ==> !IsColorWord(Split(s, ',')[j])
    ensures Color(Some(s)) == Upper(Strip(Split(s, ',')[k]))
  {
    var parts := Split(s, '_');
    assert LastColorWord(parts) == None;
    if ',' !in s {
      NoCommaNoSegmentWord(s);
      assert false;
    }
    FirstColorWordAt(Split(s, ','), k);
  }

  /** Last resort: no colour word anywhere gives UNKNOWN. */
  lemma ColorFallback(s: string)
    requires forall i :: 0 <= i < |Split(s, '_')| ==> !IsColorWord(Split(s, '_')[i])
    requires forall k :: 0 <= k < |Split(s, ',')| ==> !IsColorWord(Split(s, ',')[k])
    ensures Color(Some(s)) == UNKNOWN_COLOR
  {
    assert LastColorWord(Split(s, '_')) == None;
    assert FirstColorWord(Split(s, ',')) == None;
  }

  /** The end of the maximal run of digits that starts at `i`. */
  function DigitRunEnd(s: string, i: nat): (m: nat)
    requires i <= |s|
    ensures i <= m <= |s| && AllDigits(s[i..m])
    ensures m < |s| ==> !IsDigit(s[m])
    decreases |s| - i
  {
    if i < |s| && IsDigit(s[i]) then DigitRunEnd(s, i + 1) else i
  }

  /** Where Python's `$` matches without MULTILINE: at the very end, or just before a
      newline that ends the string. */
  predicate DollarAt(s: string, k: nat) {
    k == |s| || (k + 1 == |s| && s[k] == '\n')
  }

  /** `re.search(r'(\d+)$', s)` from position `i` on, returning group 1.  From each
      start the greedy `\d+` tries the longest run first; a shorter run ends in front
      of a digit, where `$` cannot match, so only the longest run needs trying. */
  function SearchDigitsAtEnd(s: string, i: nat): Option<string>
    requires i <= |s|
    decreases |s| - i
  {
    if i == |s| then None
    else
      var m := DigitRunEnd(s, i);
      if m > i && DollarAt(s, m) then Some(s[i..m]) else SearchDigitsAtEnd(s, i + 1)
  }

  /** `extract_style_digits`: group 1 of the match, or '' when there is none or the
      cell is missing. */
  function StyleDigits(style: Option<string>): string {
    match style
    case None => ""
    case Some(s) =>
      match SearchDigitsAtEnd(s, 0)
      case Some(g) => g
      case None => ""
  }

  /** Where the trailing digit run may end: before one final newline, if present. */
  function MatchEnd(s: string): (e: nat)
    ensures e <= |s| && DollarAt(s, e)
  {
    if |s| != 0 && s[|s| - 1] == '\n' then |s| - 1 else |s|
  }

  /** The start of the maximal run of digits that ends at `e`. */
  function RunStart(s: string, e: nat): (t: nat)
    requires e <= |s|
    ensures t <= e && AllDigits(s[t..e])
    ensures t > 0 ==> !IsDigit(s[t - 1])
  {
    if e == 0 || !IsDigit(s[e - 1]) then e
    else
      var t := RunStart(s, e - 1);
      assert s[t..e] == s[t..e - 1] + [s[e - 1]];
      t
  }

  lemma {:induction false} SearchSkipsToRun(s: string, i: nat)
    requires i <= RunStart(s, MatchEnd(s))
    ensures SearchDigitsAtEnd(s, i) == SearchDigitsAtEnd(s, RunStart(s, MatchEnd(s)))
    decreases |s| - i
  {
    var e := MatchEnd(s);
    var t := RunStart(s, e);
    if i < t {
      var m := DigitRunEnd(s, i);
      if m > i && DollarAt(s, m) {
        assert false;
      }
      SearchSkipsToRun(s, i + 1);
    }
  }

  /** `extract_style_digits` returns the maximal run of digits at the end of the
      style code (ignoring one final newline, as `$` does), and '' exactly when the
      code does not end in a digit there. */
  lemma StyleDigitsTrailingRun(s: string)
    ensures AllDigits(StyleDigits(Some(s)))
    ensures StyleDigits(Some(s)) == s[RunStart(s, MatchEnd(s))..MatchEnd(s)]
    ensures StyleDigits(Some(s)) == "" <==> MatchEnd(s) == 0 || !IsDigit(s[MatchEnd(s) - 1])
  {
    var e := MatchEnd(s);
    var t := RunStart(s, e);
    SearchSkipsToRun(s, 0);
    if t < e {
      assert DigitRunEnd(s, t) == e by {
        if DigitRunEnd(s, t) < e {
          assert false;
        }
      }
    } else if t < |s| {
      assert DigitRunEnd(s, t) == t;
      assert SearchDigitsAtEnd(s, t + 1) == None;
    }
  }

  /** Line 46: the ColorStyle key. */
  function ColorStyleKey(desc: Option<string>, style: Option<string>): string {
    Color(desc) + KEY_SEPARATOR + StyleDigits(style)
  }

  lemma SeparatorAfterShorter(c1: string, t1: string, c2: string, t2: string)
    requires forall i :: 0 <= i < |c2| ==> IsUpperLetter(c2[i])
    requires |c1| < |c2|
    ensures c1 + KEY_SEPARATOR + t1 != c2 + KEY_SEPARATOR + t2
  {
    assert (c1 + KEY_SEPARATOR + t1)[|c1|] == ' ';
    assert (c2 + KEY_SEPARATOR + t2)[|c1|] == c2[|c1|];
  }

  /** `c + " - " + d` can be taken apart again when `c` is made of capital letters. */
  lemma KeyParts(c1: string, t1: string, c2: string, t2: string)
    requires forall i :: 0 <= i < |c1| ==> IsUpperLetter(c1[i])
    requires forall i :: 0 <= i < |c2| ==> IsUpperLetter(c2[i])
    requires c1 + KEY_SEPARATOR + t1 == c2 + KEY_SEPARATOR + t2
    ensures c1 == c2 && t1 == t2
  {
    var k := c1 + KEY_SEPARATOR + t1;
    if |c1| < |c2| {
      SeparatorAfterShorter(c1, t1, c2, t2);
    } else if |c2| < |c1| {
      SeparatorAfterShorter(c2, t2, c1, t1);
    }
    assert c1 == k[..|c1|] && c2 == k[..|c2|];
    assert t1 == k[|c1| + 3..] && t2 == k[|c2| + 3..];
  }

  /** The key determines both its colour and its style digits, so two line items get
      the same key exactly when both parts agree. */
  lemma ColorStyleKeyInjective(d1: Option<string>, s1: Option<string>, d2: Option<string>, s2: Option<string>)
    ensures ColorStyleKey(d1, s1) == ColorStyleKey(d2, s2) <==>
              Color(d1) == Color(d2) && StyleDigits(s1) == StyleDigits(s2)
  {
    if ColorStyleKey(d1, s1) == ColorStyleKey(d2, s2) {
      ColorShape(d1);
      ColorShape(d2);
      KeyParts(Color(d1), StyleDigits(s1), Color(d2), StyleDigits(s2));
    }
  }
}
