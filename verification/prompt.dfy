/** How the server reads a size out of a free-text prompt: the
    `(\d+)\s*[-]?\s*(?:word)` scanners of `_count_requested_notes` and
    `estimate_generate_tokens`, run with `re.findall` and `re.IGNORECASE`,
    and the drum-keyword searches that pick a default. */
module Prompt {
  import opened Wrappers
  import opened Text
  import opened Json

  /** Case-insensitive literal match of the lower-case word `w` at `i`. */
  predicate WordAt(s: string, w: string, i: int) {
    0 <= i && i + |w| <= |s| && forall j :: 0 <= j < |w| ==> Lower(s[i + j]) == w[j]
  }

  /** End of the digit run starting at `i` (greedy `\d+` / `\d*`). */
  function DigitEnd(s: string, i: nat): (e: nat)
    requires i <= |s|
    ensures i <= e <= |s| && AllDigits(s[i..e])
    ensures e == |s| || !IsDigit(s[e])
    decreases |s| - i
  {
    if i < |s| && IsDigit(s[i]) then DigitEnd(s, i + 1) else i
  }

  /** One alternative of a keyword family such as `(?:notes?|steps?|hits?)`:
      a non-empty lower-case word without digits, matched with an optional
      "s" after it. */
  type Stem = w: string | |w| > 0 && forall j :: 0 <= j < |w| ==> !IsDigit(w[j]) witness "s"

  /** The alternation at `i`: the first stem that matches, then a greedy
      `s?`. The result is where the match ends. */
  function KeywordEnd(s: string, stems: seq<Stem>, i: nat): (r: Option<nat>)
    ensures r.None? <==> forall k :: 0 <= k < |stems| ==> !WordAt(s, stems[k], i)
    ensures r.Some? ==> i < r.value <= |s| && exists k :: 0 <= k < |stems| && WordAt(s, stems[k], i) &&
                                               (r.value == i + |stems[k]| ||
                                                (r.value == i + |stems[k]| + 1 && Lower(s[i + |stems[k]|]) == 's'))
    ensures r.Some? ==> forall j :: i <= j < r.value ==> !IsDigit(s[j])
    decreases |stems|
  {
    if |stems| == 0 then None
    else if WordAt(s, stems[0], i) then
      var e := i + |stems[0]|;
      assert forall j :: i <= j < e ==> !IsDigit(s[j]) by {
        forall j | i <= j < e
          ensures !IsDigit(s[j])
        {
          assert Lower(s[i + (j - i)]) == stems[0][j - i];
        }
      }
      Some(if e < |s| && Lower(s[e]) == 's' then e + 1 else e)
    else
      var r := KeywordEnd(s, stems[1..], i);
      assert forall k :: 1 <= k < |stems| ==> stems[k] == stems[1..][k - 1];
      r
  }

  /** What must follow the digits of a count ending at `d`: spaces, an
      optional hyphen, spaces, and a keyword; the result is where the keyword
      ends. Backtracking cannot help here: a shorter space run leaves a space
      where the keyword must start, and when a hyphen follows the spaces the
      keyword must come after it. */
  function AfterDigits(s: string, stems: seq<Stem>, d: nat): (r: Option<nat>)
    requires d <= |s|
    ensures r.Some? ==> d < r.value <= |s|
    ensures r.Some? ==> forall j :: d <= j < r.value ==> !IsDigit(s[j])
  {
    var w := SpaceEnd(s, d);
    var k := if w < |s| && s[w] == '-' then SpaceEnd(s, w + 1) else w;
    KeywordEnd(s, stems, k)
  }

  /** One attempt of `(\d+)\s*[-]?\s*(?:…)` at `i`: the value of the digit
      group and where the match ends. A shorter digit run cannot help either,
      since it leaves a digit where the spaces or the keyword must start. */
  function MatchAt(s: string, stems: seq<Stem>, i: nat): (r: Option<(nat, nat)>)
    ensures r.Some? ==> i < |s| && IsDigit(s[i]) && i < r.value.1 <= |s|
  {
    if i < |s| && IsDigit(s[i]) then
      var d := DigitEnd(s, i);
      match AfterDigits(s, stems, d)
      case None => None
      case Some(e) => Some((DigitsValue(s[i..d]), e))
    else None
  }

  /** `re.findall` from position `i`: try a match; on success keep its group
      and go on after it, otherwise move one character along. */
  function Scan(s: string, stems: seq<Stem>, i: nat): seq<nat>
    requires i <= |s|
    decreases |s| - i
  {
    if i == |s| then []
    else match MatchAt(s, stems, i)
      case Some((v, e)) => [v] + Scan(s, stems, e)
      case None => Scan(s, stems, i + 1)
  }

  function FindAll(s: string, stems: seq<Stem>): seq<nat> {
    Scan(s, stems, 0)
  }

  /** `i` starts a digit run: nothing, or a non-digit, comes before it. */
  predicate RunStart(s: string, i: nat)
    requires i <= |s|
  {
    i == 0 || !IsDigit(s[i - 1])
  }

  /** The digit run starting at `k` is followed by a keyword and reads as `v`. */
  predicate MentionAt(s: string, stems: seq<Stem>, k: nat, v: nat) {
    && k < |s| && RunStart(s, k)
    && MatchAt(s, stems, k).Some? && MatchAt(s, stems, k).value.0 == v
  }

  /** A value is a mention when some whole digit run followed by a keyword
      reads as it. */
  ghost predicate Mentioned(s: string, stems: seq<Stem>, v: nat) {
    exists k: nat :: MentionAt(s, stems, k, v)
  }

  /** Reference reading of a prompt: the value of every whole digit run
      from `i` on that a keyword follows, in order of position. */
  ghost function RunValues(s: string, stems: seq<Stem>, i: nat): seq<nat>
    requires i <= |s|
    decreases |s| - i
  {
    if i == |s| then []
    else
      var here := if RunStart(s, i) && MatchAt(s, stems, i).Some? then [MatchAt(s, stems, i).value.0] else [];
      here + RunValues(s, stems, i + 1)
  }

  /** No mention can start at `k`: it is inside a digit run or not a digit. */
  predicate Quiet(s: string, stems: seq<Stem>, k: nat)
    requires k <= |s|
  {
    !RunStart(s, k) || MatchAt(s, stems, k).None?
  }

  lemma {:induction false} RunSkip(s: string, stems: seq<Stem>, a: nat, b: nat)
    requires a <= b <= |s|
    requires forall k :: a <= k < b ==> Quiet(s, stems, k)
    ensures RunValues(s, stems, a) == RunValues(s, stems, b)
    decreases b - a
  {
    if a < b {
      assert Quiet(s, stems, a);
      RunSkip(s, stems, a + 1, b);
    }
  }

  /** `findall` reports exactly the reference reading, in order: a match
      never swallows the start of another run, and a failed run fails at
      every one of its later digits. */
  lemma {:induction false} ScanRuns(s: string, stems: seq<Stem>, i: nat)
    requires i <= |s|
    requires Quiet(s, stems, i) ==> MatchAt(s, stems, i).None?
    ensures Scan(s, stems, i) == RunValues(s, stems, i)
    decreases |s| - i
  {
    if i < |s| {
      match MatchAt(s, stems, i)
      case Some((v, e)) =>
        var d := DigitEnd(s, i);
        assert AfterDigits(s, stems, d) == Some(e);
        forall k | i + 1 <= k < e
          ensures Quiet(s, stems, k)
        {
          if k <= d {
            assert s[i..d][k - 1 - i] == s[k - 1];
          } else {
            assert !IsDigit(s[k]);
          }
        }
        RunSkip(s, stems, i + 1, e);
        assert !IsDigit(s[e - 1]);
        ScanRuns(s, stems, e);
      case None =>
        if IsDigit(s[i]) && i + 1 < |s| && IsDigit(s[i + 1]) {
          assert DigitEnd(s, i + 1) == DigitEnd(s, i);
        }
        ScanRuns(s, stems, i + 1);
    }
  }

  lemma {:induction false} RunValuesMembers(s: string, stems: seq<Stem>, i: nat)
    requires i <= |s|
    ensures forall v :: v in RunValues(s, stems, i) <==> exists k: nat :: i <= k && MentionAt(s, stems, k, v)
    decreases |s| - i
  {
    if i < |s| {
      RunValuesMembers(s, stems, i + 1);
      var here := if RunStart(s, i) && MatchAt(s, stems, i).Some? then [MatchAt(s, stems, i).value.0] else [];
      assert RunValues(s, stems, i) == here + RunValues(s, stems, i + 1);
      forall v
        ensures v in RunValues(s, stems, i) <==> exists k: nat :: i <= k && MentionAt(s, stems, k, v)
      {
        if v in here {
          assert MentionAt(s, stems, i, v);
        } else {
          assert !MentionAt(s, stems, i, v);
          if k: nat :| i <= k && MentionAt(s, stems, k, v) {
            assert i + 1 <= k;
          }
        }
      }
    }
  }

  /** A value is in `findall`'s list exactly when the prompt mentions it. */
  lemma {:induction false} FindAllMentions(s: string, stems: seq<Stem>)
    ensures forall v :: v in FindAll(s, stems) <==> Mentioned(s, stems, v)
  {
    ScanRuns(s, stems, 0);
    RunValuesMembers(s, stems, 0);
  }

  /** A prompt without a digit mentions no count. */
  lemma {:induction false} ScanNoDigits(s: string, stems: seq<Stem>, i: nat)
    requires i <= |s|
    requires forall j :: i <= j < |s| ==> !IsDigit(s[j])
    ensures Scan(s, stems, i) == []
    decreases |s| - i
  {
    if i < |s| {
      ScanNoDigits(s, stems, i + 1);
    }
  }

  /** `max(xs)` over a non-empty list. */
  function SeqMax(xs: seq<nat>): (m: nat)
    requires |xs| > 0
    ensures m in xs
    ensures forall j :: 0 <= j < |xs| ==> xs[j] <= m
  {
    if |xs| == 1 then xs[0]
    else
      var rest := SeqMax(xs[1..]);
      assert forall j :: 1 <= j < |xs| ==> xs[j] == xs[1..][j - 1];
      if xs[0] >= rest then xs[0] else rest
  }

  const NoteStems: seq<Stem> := ["note", "step", "hit"]
  const EventStems: seq<Stem> := ["note", "step", "hit", "event"]
  const BarStems: seq<Stem> := ["bar"]
  const BeatStems: seq<Stem> := ["beat"]

  /** `_count_requested_notes`: the largest note/step/hit count, else four
      notes per bar for the largest bar count, else 0 ("unclear"). */
  function CountRequestedNotes(prompt: string): (r: nat)
    ensures |FindAll(prompt, NoteStems)| > 0 ==>
      r in FindAll(prompt, NoteStems) && forall v :: v in FindAll(prompt, NoteStems) ==> v <= r
    ensures |FindAll(prompt, NoteStems)| == 0 && |FindAll(prompt, BarStems)| > 0 ==>
      r % 4 == 0 && r / 4 in FindAll(prompt, BarStems) && forall v :: v in FindAll(prompt, BarStems) ==> 4 * v <= r
    ensures |FindAll(prompt, NoteStems)| == 0 && |FindAll(prompt, BarStems)| == 0 ==> r == 0
  {
    var notes := FindAll(prompt, NoteStems);
    if |notes| > 0 then SeqMax(notes)
    else
      var bars := FindAll(prompt, BarStems);
      if |bars| > 0 then
        var m := SeqMax(bars);
        Times4(m);
        m * 4
      else 0
  }

  lemma {:induction false} Times4(m: nat)
    ensures (m * 4) % 4 == 0 && (m * 4) / 4 == m
  {
  }

  /** The token budget for `n` expected notes: about 55 tokens a note plus
      300 of overhead, kept within [1000, 3200]. */
  function BudgetFor(n: nat): (r: int)
    ensures 1000 <= r <= 3200
  {
    Clamp(1000, 3200, 300 + n * 55)
  }

  /** The budget as a closed form: flat 1000 up to 12 notes, 3200 from 53
      notes on, linear in between. */
  lemma {:induction false} BudgetForShape(n: nat)
    ensures n <= 12 ==> BudgetFor(n) == 1000
    ensures 13 <= n <= 52 ==> BudgetFor(n) == 300 + 55 * n
    ensures n >= 53 ==> BudgetFor(n) == 3200
  {
  }

  /** More notes never buy a smaller budget. */
  lemma {:induction false} BudgetMonotone(a: nat, b: nat)
    requires a <= b
    ensures BudgetFor(a) <= BudgetFor(b)
  {
  }

  /** Case-insensitive `re.search` for a literal word. */
  predicate Mentions(s: string, w: string) {
    exists i :: 0 <= i <= |s| && WordAt(s, w, i)
  }

  /** `hi.?hat`: "hi", at most one character other than a newline, "hat". */
  predicate MentionsHiHat(s: string) {
    exists i :: 0 <= i <= |s| && WordAt(s, "hi", i) &&
      (WordAt(s, "hat", i + 2) || (i + 2 < |s| && s[i + 2] != '\n' && WordAt(s, "hat", i + 3)))
  }

  /** `drum|kick|snare|hi.?hat|perc`, and with `withBeat` also `|beat`. */
  predicate DrumPrompt(s: string, withBeat: bool) {
    || Mentions(s, "drum") || Mentions(s, "kick") || Mentions(s, "snare")
    || MentionsHiHat(s) || Mentions(s, "perc")
    || (withBeat && Mentions(s, "beat"))
  }

  /** A word anywhere in a prompt is found, whatever its ASCII case. */
  lemma {:induction false} MentionsInside(a: string, w: string, b: string, c: string)
    requires |w| == |c| && forall j :: 0 <= j < |w| ==> Lower(c[j]) == w[j]
    ensures Mentions(a + c + b, w)
  {
    assert WordAt(a + c + b, w, |a|) by {
      assert forall j :: 0 <= j < |w| ==> (a + c + b)[|a| + j] == c[j];
    }
  }

  /** `estimate_generate_tokens`: note/step/hit/event counts win over bar
      counts (8 notes a bar for drum prompts, 4 otherwise), which win over
      beat counts; with none of them the budget is 1000. */
  function EstimateGenerateTokens(prompt: string): (r: int)
    ensures 1000 <= r <= 3200
    ensures |FindAll(prompt, EventStems)| > 0 ==> r == BudgetFor(SeqMax(FindAll(prompt, EventStems)))
    ensures |FindAll(prompt, EventStems)| == 0 && |FindAll(prompt, BarStems)| > 0 ==>
      r == BudgetFor(SeqMax(FindAll(prompt, BarStems)) * (if DrumPrompt(prompt, false) then 8 else 4))
    ensures |FindAll(prompt, EventStems)| == 0 && |FindAll(prompt, BarStems)| == 0 && |FindAll(prompt, BeatStems)| > 0 ==>
      r == BudgetFor(SeqMax(FindAll(prompt, BeatStems)))
    ensures |FindAll(prompt, EventStems)| == 0 && |FindAll(prompt, BarStems)| == 0 && |FindAll(prompt, BeatStems)| == 0 ==>
      r == 1000
  {
    var notes := FindAll(prompt, EventStems);
    if |notes| > 0 then BudgetFor(SeqMax(notes))
    else
      var bars := FindAll(prompt, BarStems);
      if |bars| > 0 then
        var perBar := if DrumPrompt(prompt, false) then 8 else 4;
        BudgetFor(SeqMax(bars) * perBar)
      else
        var beats := FindAll(prompt, BeatStems);
        if |beats| > 0 then BudgetFor(SeqMax(beats)) else 1000
  }

  /** The count the dedicated generate path aims for: the prompt's own
      count, or 16 for a drum-ish prompt (here "beat" counts as drum-ish)
      and 8 otherwise. */
  function RequestedWithDefault(prompt: string): (r: nat)
    ensures r > 0
    ensures CountRequestedNotes(prompt) > 0 ==> r == CountRequestedNotes(prompt)
    ensures CountRequestedNotes(prompt) == 0 ==> (r == 16 <==> DrumPrompt(prompt, true)) && (r == 8 <==> !DrumPrompt(prompt, true))
  {
    var n := CountRequestedNotes(prompt);
    if n > 0 then n else if DrumPrompt(prompt, true) then 16 else 8
  }

  /** A prompt without digits asks for nothing specific: no count, the
      minimum budget. */
  lemma {:induction false} NoDigitsNoCount(prompt: string)
    requires forall j :: 0 <= j < |prompt| ==> !IsDigit(prompt[j])
    ensures CountRequestedNotes(prompt) == 0
    ensures EstimateGenerateTokens(prompt) == 1000
  {
    ScanNoDigits(prompt, NoteStems, 0);
    ScanNoDigits(prompt, BarStems, 0);
    ScanNoDigits(prompt, EventStems, 0);
    ScanNoDigits(prompt, BeatStems, 0);
  }

  /** A stem followed by its plural "s", lower-case. */
  function Plural(stem: string): string {
    stem + "s"
  }

  /** The phrase "<n> <stem>s" is read back as `n`, and the scan then stops. */
  lemma {:induction false} PhraseScan(n: nat, stems: seq<Stem>, k: nat)
    requires k < |stems|
    requires forall j :: 0 <= j < |stems[k]| ==> 'a' <= stems[k][j] <= 'z'
    requires forall m :: 0 <= m < k ==> !WordAt(DecimalString(n) + " " + Plural(stems[k]), stems[m], |DecimalString(n)| + 1)
    ensures FindAll(DecimalString(n) + " " + Plural(stems[k]), stems) == [n]
  {
    var ds := DecimalString(n);
    var s := ds + " " + Plural(stems[k]);
    assert s[..|ds|] == ds;
    DigitEndAt(s, ds);
    PhraseKeyword(ds, stems, k);
    assert s[0..|ds|] == ds;
    DecimalRoundTrip(n);
    assert MatchAt(s, stems, 0) == Some((n, |s|));
    assert Scan(s, stems, 0) == [n] + Scan(s, stems, |s|);
  }

  /** After the digits of "<n> <stem>s" come one space and the keyword, which
      runs to the end. */
  lemma {:induction false} PhraseKeyword(ds: string, stems: seq<Stem>, k: nat)
    requires k < |stems|
    requires forall j :: 0 <= j < |stems[k]| ==> 'a' <= stems[k][j] <= 'z'
    requires forall m :: 0 <= m < k ==> !WordAt(ds + " " + Plural(stems[k]), stems[m], |ds| + 1)
    ensures var s := ds + " " + Plural(stems[k]);
      AfterDigits(s, stems, |ds|) == Some(|s|)
  {
    var w := stems[k];
    var s := ds + " " + Plural(w);
    assert SpaceEnd(s, |ds| + 1) == |ds| + 1 by { assert s[|ds| + 1] == w[0]; }
    assert s[|ds|] == ' ';
    assert SpaceEnd(s, |ds|) == |ds| + 1;
    assert WordAt(s, w, |ds| + 1) by {
      assert forall j :: 0 <= j < |w| ==> s[|ds| + 1 + j] == w[j];
    }
    KeywordFirst(s, stems, k, |ds| + 1);
    var e := |ds| + 1 + |w|;
    assert e + 1 == |s| && s[e] == 's' && Lower(s[e]) == 's';
  }

  lemma {:induction false} DigitEndAt(s: string, ds: string)
    requires |ds| > 0 && AllDigits(ds) && |s| > |ds| && s[..|ds|] == ds && !IsDigit(s[|ds|])
    ensures DigitEnd(s, 0) == |ds|
  {
  }

  lemma {:induction false} KeywordFirst(s: string, stems: seq<Stem>, k: nat, i: nat)
    requires k < |stems| && WordAt(s, stems[k], i)
    requires forall m :: 0 <= m < k ==> !WordAt(s, stems[m], i)
    ensures KeywordEnd(s, stems, i) == Some(
      var e := i + |stems[k]|; if e < |s| && Lower(s[e]) == 's' then e + 1 else e)
    decreases k
  {
    if k > 0 {
      var tail := stems[1..];
      assert !WordAt(s, stems[0], i);
      assert tail[k - 1] == stems[k];
      forall m | 0 <= m < k - 1 ensures !WordAt(s, tail[m], i) {
        assert tail[m] == stems[m + 1];
      }
      KeywordFirst(s, tail, k - 1, i);
      assert KeywordEnd(s, stems, i) == KeywordEnd(s, tail, i);
    }
  }

  /** "<n> notes" asks for exactly `n` notes and budgets for them. */
  lemma {:induction false} NotesPhrase(n: nat)
    ensures CountRequestedNotes(DecimalString(n) + " notes") == n
    ensures EstimateGenerateTokens(DecimalString(n) + " notes") == BudgetFor(n)
  {
    var s := DecimalString(n) + " notes";
    assert NoteStems[0] == "note" && EventStems[0] == "note";
    assert s == DecimalString(n) + " " + Plural("note");
    PhraseScan(n, NoteStems, 0);
    PhraseScan(n, EventStems, 0);
    assert FindAll(s, NoteStems) == [n];
    assert SeqMax([n]) == n;
  }

  /** "<n> bars" asks for four notes a bar, and without a drum word the budget
      is for the same four notes a bar. */
  lemma {:induction false} BarsPhrase(n: nat)
    ensures CountRequestedNotes(DecimalString(n) + " bars") == 4 * n
    ensures EstimateGenerateTokens(DecimalString(n) + " bars") == BudgetFor(4 * n)
  {
    var s := DecimalString(n) + " bars";
    BarsScans(n);
    assert SeqMax([n]) == n;
    assert !DrumPrompt(s, false) by { NotDrum(n); }
  }

  lemma {:induction false} BarsScanBar(n: nat)
    ensures FindAll(DecimalString(n) + " bars", BarStems) == [n]
  {
    assert " bars" == " " + Plural(BarStems[0]);
    assert DecimalString(n) + " bars" == DecimalString(n) + " " + Plural(BarStems[0]);
    PhraseScan(n, BarStems, 0);
  }

  lemma {:induction false} BarsScans(n: nat)
    ensures FindAll(DecimalString(n) + " bars", BarStems) == [n]
    ensures FindAll(DecimalString(n) + " bars", NoteStems) == []
    ensures FindAll(DecimalString(n) + " bars", EventStems) == []
  {
    BarsScanBar(n);
    assert forall k :: 0 <= k < |NoteStems| ==> NoteStems[k][0] != 'b' by {
      assert NoteStems == ["note", "step", "hit"];
    }
    NoBarKeyword(n, NoteStems);
    assert forall k :: 0 <= k < |EventStems| ==> EventStems[k][0] != 'b' by {
      assert EventStems == ["note", "step", "hit", "event"];
    }
    NoBarKeyword(n, EventStems);
  }

  lemma {:induction false} DigitEndSame(s: string, i: nat, j: nat)
    requires i <= |s| && i <= j <= DigitEnd(s, i)
    ensures DigitEnd(s, j) == DigitEnd(s, i)
    decreases j - i
  {
    if i < j {
      DigitEndSame(s, i + 1, j);
    }
  }

  /** Inside a digit run that failed to match, every later start fails too:
      it reaches the same spaces, hyphen and keyword position. */
  lemma {:induction false} ScanFailedRun(s: string, stems: seq<Stem>, i: nat)
    requires i < |s| && IsDigit(s[i]) && MatchAt(s, stems, i).None?
    ensures Scan(s, stems, i) == Scan(s, stems, DigitEnd(s, i))
    decreases DigitEnd(s, i) - i
  {
    var d := DigitEnd(s, i);
    assert AfterDigits(s, stems, d).None?;
    assert Scan(s, stems, i) == Scan(s, stems, i + 1);
    if i + 1 < d {
      DigitEndSame(s, i, i + 1);
      assert IsDigit(s[i + 1]) by { assert s[i..d][1] == s[i + 1]; }
      ScanFailedRun(s, stems, i + 1);
    }
  }

  lemma {:induction false} NoBarKeyword(n: nat, stems: seq<Stem>)
        requires forall k :: 0 <= k < |stems| ==> stems[k][0] != 'b'
    ensures FindAll(DecimalString(n) + " bars", stems) == []
  {
    var ds := DecimalString(n);
    var s := ds + " bars";
    var d := |ds|;
    assert s[..d] == ds;
    DigitEndAt(s, ds);
    assert SpaceEnd(s, d) == d + 1 by { assert s[d] == ' ' && s[d + 1] == 'b'; }
    assert forall k :: 0 <= k < |stems| ==> !WordAt(s, stems[k], d + 1) by {
      assert Lower(s[d + 1]) == 'b';
    }
    assert MatchAt(s, stems, 0) == None;
    assert IsDigit(s[0]) by { assert s[0] == ds[0]; }
    ScanFailedRun(s, stems, 0);
    ScanNoDigits(s, stems, d);
  }

  /** "<n> bars" names no drum. */
  lemma {:induction false} NotDrum(n: nat)
    ensures !DrumPrompt(DecimalString(n) + " bars", false)
  {
    var ds := DecimalString(n);
    var s := ds + " bars";
    var d := |ds|;
    assert forall i :: 0 <= i < d ==> IsDigit(s[i]) && Lower(s[i]) == s[i] by {
      assert forall i :: 0 <= i < d ==> s[i] == ds[i];
    }
    assert s[d] == ' ' && s[d + 1] == 'b' && s[d + 2] == 'a' && s[d + 3] == 'r' && s[d + 4] == 's';
    forall i | 0 <= i < |s|
      ensures Lower(s[i]) !in {'d', 'k', 'p', 'h'}
      ensures i <= d ==> Lower(s[i]) != 's'
    {
      if i < d {
        assert IsDigit(s[i]);
      }
    }
    NotMentioned(s, "drum");
    NotMentioned(s, "kick");
    NotMentioned(s, "perc");
    NotMentioned(s, "snare");
    NotMentioned(s, "hi");
  }

  /** A word whose first letter cannot start there is not found. */
  lemma {:induction false} NotMentioned(s: string, w: string)
    requires |w| > 0 && forall i :: 0 <= i <= |s| - |w| ==> Lower(s[i]) != w[0]
    ensures !Mentions(s, w) && (w == "hi" ==> !MentionsHiHat(s))
  {
    forall i | 0 <= i <= |s| ensures !WordAt(s, w, i) {
      if i <= |s| - |w| {
        assert Lower(s[i + 0]) != w[0];
      }
    }
  }
}
