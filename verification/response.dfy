/** Reading a model's reply in generate mode: the fenced-block extractor
    (`extract_json_blocks`), the quirk normaliser (`_normalize_json_text`),
    the truncation repair, and `parse_generate_response`, which chains them.
    `json.loads` is an oracle: a parser that yields a value or nothing. */
module Response {
  import opened Wrappers
  import opened Text
  import opened Json

  /** `json.loads`, with `JSONDecodeError` as `None`. */
  type Parser = string -> Option<Json>

  const Fence: string := "```"
  const JsonFence: string := "```json"

  // ── extract_json_blocks ────────────────────────────────────────────

  /** What one segment after a "```json" opener contributes: the text up to
      its closing fence, stripped and parsed; nothing when the fence is never
      closed or the text does not parse. */
  function SegmentBlock(segment: string, parse: Parser): Option<Json> {
    var end := Find(segment, Fence);
    if end == -1 then None else parse(Strip(segment[..end]))
  }

  function SegmentBlocks(segments: seq<string>, parse: Parser): (r: seq<Json>)
    ensures |r| <= |segments|
  {
    if |segments| == 0 then []
    else
      match SegmentBlock(segments[0], parse)
      case Some(j) => [j] + SegmentBlocks(segments[1..], parse)
      case None => SegmentBlocks(segments[1..], parse)
  }

  /** `extract_json_blocks`: every segment after the first "```json" is a
      candidate block; the text before the first opener is ignored. */
  function ExtractJsonBlocks(text: string, parse: Parser): (r: seq<Json>)
    ensures |r| < |Split(text, JsonFence)|
  {
    SegmentBlocks(Split(text, JsonFence)[1..], parse)
  }

  /** A reference shape for replies with fenced blocks: each block is an
      opener, a body, a closing fence and the prose after it. */
  datatype Fenced = Fenced(body: string, gap: string)

  function Render(fs: seq<Fenced>): string {
    if |fs| == 0 then "" else JsonFence + (Segment(fs[0]) + Render(fs[1..]))
  }

  /** The bodies that parse, in order. */
  function Parses(fs: seq<Fenced>, parse: Parser): seq<Json> {
    if |fs| == 0 then []
    else
      match parse(Strip(fs[0].body))
      case Some(j) => [j] + Parses(fs[1..], parse)
      case None => Parses(fs[1..], parse)
  }

  predicate NoTicks(s: string) {
    forall i :: 0 <= i < |s| ==> s[i] != '`'
  }

  /** A block whose body holds no backtick and whose following prose holds
      no backtick and does not start with "j" (which would turn the closing
      fence into a new opener); the prose may be empty, as when the reply
      ends at the closing fence. */
  predicate Plain(f: Fenced) {
    NoTicks(f.body) && NoTicks(f.gap) && (|f.gap| == 0 || f.gap[0] != 'j')
  }

  function Segment(f: Fenced): string {
    f.body + Fence + f.gap
  }

  /** No opener starts inside a plain block's segment when what follows it
      is nothing or another fence. */
  lemma {:induction false} NoOpenerInSegment(f: Fenced, tail: string)
    requires Plain(f)
    requires |tail| == 0 || (|tail| >= 3 && tail[..3] == Fence)
    ensures forall j :: 0 <= j < |Segment(f)| ==> !OccursAt(Segment(f) + tail, JsonFence, j)
  {
    var seg := Segment(f);
    var s := seg + tail;
    var n := |f.body|;
    forall j | 0 <= j < |seg| ensures !OccursAt(s, JsonFence, j) {
      if j + 7 <= |s| {
        if j < n {
          assert s[j] == f.body[j];
          assert s[j..j + 7][0] != JsonFence[0];
        } else if j >= n + 3 {
          assert s[j] == f.gap[j - n - 3];
          assert s[j..j + 7][0] != JsonFence[0];
        } else if |f.gap| > 0 {
          assert s[n + 3] == f.gap[0];
          assert s[j..j + 7][n + 3 - j] != JsonFence[n + 3 - j];
        } else {
          assert s[j + 3] == tail[j - n] == '`';
          assert s[j..j + 7][3] != JsonFence[3];
        }
      }
    }
  }

  function Segments(fs: seq<Fenced>): (r: seq<string>)
    ensures |r| == |fs|
  {
    if |fs| == 0 then [] else [Segment(fs[0])] + Segments(fs[1..])
  }

  /** The last plain segment is not split further. */
  lemma {:induction false} LastSegment(f: Fenced)
    requires Plain(f)
    ensures Split(Segment(f), JsonFence) == [Segment(f)]
  {
    NoOpenerInSegment(f, "");
    assert Segment(f) + "" == Segment(f);
    SplitNone(Segment(f), JsonFence);
  }

  /** After a plain segment, splitting resumes at the next opener. */
  lemma {:induction false} NextSegment(f: Fenced, after: string)
    requires Plain(f)
    ensures Split(Segment(f) + (JsonFence + after), JsonFence) == [Segment(f)] + Split(after, JsonFence)
  {
    assert (JsonFence + after)[..3] == Fence;
    NoOpenerInSegment(f, JsonFence + after);
    assert Segment(f) + JsonFence + after == Segment(f) + (JsonFence + after);
    SplitAtFirst(Segment(f), JsonFence, after);
  }

  /** The segments `split("```json")` yields for rendered blocks. */
  lemma {:induction false} SplitRendered(fs: seq<Fenced>)
    requires forall k :: 0 <= k < |fs| ==> Plain(fs[k])
    ensures Split(Render(fs), JsonFence) == [""] + Segments(fs)
  {
    if |fs| > 0 {
      var rest := Render(fs[1..]);
      var seg := Segment(fs[0]);
      SplitAtStart(JsonFence, seg + rest);
      if |fs| == 1 {
        LastSegment(fs[0]);
        assert seg + rest == seg;
      } else {
        var after := Segment(fs[1]) + Render(fs[2..]);
        assert fs[1..][1..] == fs[2..];
        assert rest == JsonFence + after;
        NextSegment(fs[0], after);
        SplitRendered(fs[1..]);
        SplitAtStart(JsonFence, after);
        assert Split(rest, JsonFence) == [""] + Split(after, JsonFence);
        assert Split(after, JsonFence) == Split(rest, JsonFence)[1..] == Segments(fs[1..]);
        assert Segments(fs) == [seg] + Segments(fs[1..]);
      }
    }
  }

  /** A plain segment's block is its body, stripped and parsed. */
  lemma {:induction false} SegmentOfPlain(f: Fenced, parse: Parser)
    requires Plain(f)
    ensures SegmentBlock(Segment(f), parse) == parse(Strip(f.body))
  {
    var seg := Segment(f);
    assert OccursAt(seg, Fence, |f.body|) by { assert seg[|f.body|..|f.body| + 3] == Fence; }
    forall j | 0 <= j < |f.body| ensures !OccursAt(seg, Fence, j) {
      assert seg[j] == f.body[j];
      if j + 3 <= |seg| {
        assert seg[j..j + 3][0] != Fence[0];
      }
    }
    assert seg[..|f.body|] == f.body;
  }

  lemma {:induction false} BlocksOfSegments(fs: seq<Fenced>, parse: Parser)
    requires forall k :: 0 <= k < |fs| ==> Plain(fs[k])
    ensures SegmentBlocks(Segments(fs), parse) == Parses(fs, parse)
  {
    if |fs| > 0 {
      SegmentOfPlain(fs[0], parse);
      BlocksOfSegments(fs[1..], parse);
      assert Segments(fs)[1..] == Segments(fs[1..]);
    }
  }

  /** Prose without backticks before the first opener is the first part. */
  lemma {:induction false} SplitAfterProse(pre: string, tail: string)
    requires NoTicks(pre)
    ensures Split(pre + JsonFence + tail, JsonFence) == [pre] + Split(tail, JsonFence)
  {
    SplitAfterClean(pre, JsonFence, tail);
  }

  /** Prose without any opener yields no blocks. */
  lemma {:induction false} ExtractProse(pre: string, parse: Parser)
    requires NoTicks(pre)
    ensures ExtractJsonBlocks(pre, parse) == []
  {
    SplitClean(pre, JsonFence);
  }

  /** The parts after the prose are the segments of the blocks. */
  lemma {:induction false} SplitDocument(pre: string, fs: seq<Fenced>)
    requires NoTicks(pre)
    requires forall k :: 0 <= k < |fs| ==> Plain(fs[k])
    ensures Split(pre + Render(fs), JsonFence)[1..] == Segments(fs)
  {
    if |fs| == 0 {
      ProseOnly(pre, fs);
    } else {
      var tail := Segment(fs[0]) + Render(fs[1..]);
      TailSegments(fs, tail);
      ProseThenTail(pre, Render(fs), tail);
    }
  }

  lemma {:induction false} ProseOnly(pre: string, fs: seq<Fenced>)
    requires NoTicks(pre) && |fs| == 0
    ensures Split(pre + Render(fs), JsonFence) == [pre]
  {
    assert pre + Render(fs) == pre;
    SplitClean(pre, JsonFence);
  }

  lemma {:induction false} ProseThenTail(pre: string, rendered: string, tail: string)
    requires NoTicks(pre) && rendered == JsonFence + tail
    ensures Split(pre + rendered, JsonFence)[1..] == Split(tail, JsonFence)
  {
    assert pre + rendered == pre + JsonFence + tail;
    SplitAfterProse(pre, tail);
  }

  lemma {:induction false} TailSegments(fs: seq<Fenced>, tail: string)
    requires forall k :: 0 <= k < |fs| ==> Plain(fs[k])
    requires |fs| > 0 && tail == Segment(fs[0]) + Render(fs[1..])
    ensures Render(fs) == JsonFence + tail
    ensures Split(tail, JsonFence) == Segments(fs)
  {
    assert Render(fs) == JsonFence + tail;
    SplitRendered(fs);
    SplitAtStart(JsonFence, tail);
    var parts := Split(tail, JsonFence);
    assert parts == ([""] + parts)[1..];
  }

  /** `extract_json_blocks` on a reply made of prose and fenced blocks gives
      the parse of every block body that parses, in the order written; the
      prose before the first block is ignored. */
  lemma {:induction false} ExtractRendered(pre: string, fs: seq<Fenced>, parse: Parser)
    requires NoTicks(pre)
    requires forall k :: 0 <= k < |fs| ==> Plain(fs[k])
    ensures ExtractJsonBlocks(pre + Render(fs), parse) == Parses(fs, parse)
  {
    BlocksOfSegments(fs, parse);
    SplitDocument(pre, fs);
  }

  /** A block whose closing fence never comes is dropped. */
  lemma {:induction false} UnclosedDropped(pre: string, body: string, parse: Parser)
    requires NoTicks(pre) && NoTicks(body)
    ensures ExtractJsonBlocks(pre + JsonFence + body, parse) == []
  {
    SplitAfterClean(pre, JsonFence, body);
    SplitClean(body, JsonFence);
    forall j | 0 <= j < |body| ensures !OccursAt(body, Fence, j) {
      if j + 3 <= |body| {
        assert body[j..j + 3][0] != Fence[0];
      }
    }
  }

  // ── _normalize_json_text ───────────────────────────────────────────

  /** The lookbehind class `[\[{,:\s]` of the quote rewrite. */
  predicate Before(c: char) {
    c == '[' || c == '{' || c == ',' || c == ':' || IsSpace(c)
  }

  /** The lookahead class `[\]},:\s]` of the quote rewrite. */
  predicate After(c: char) {
    c == ']' || c == '}' || c == ',' || c == ':' || IsSpace(c)
  }

  /** A single quote next to structure: preceded by a `Before` character or
      followed by an `After` one. */
  predicate Swapped(t: string, i: nat)
    requires i < |t|
  {
    t[i] == '\'' && ((i > 0 && Before(t[i - 1])) || (i + 1 < |t| && After(t[i + 1])))
  }

  /** The first rewrite: each single quote next to structure becomes a double
      quote. Every match is one character and the lookarounds read the text
      as it was, so each position is decided on its own. */
  function FixQuotes(t: string): (r: string)
    ensures |r| == |t|
  {
    seq(|t|, i requires 0 <= i < |t| => if Swapped(t, i) then '"' else t[i])
  }

  /** Only single quotes change, into double quotes, and no single quote
      next to structure survives. */
  lemma {:induction false} FixQuotesSound(t: string)
    ensures forall i :: 0 <= i < |t| ==> FixQuotes(t)[i] == t[i] || (t[i] == '\'' && FixQuotes(t)[i] == '"')
    ensures forall i :: 0 <= i < |t| && FixQuotes(t)[i] == '\'' ==> !Swapped(FixQuotes(t), i)
  {
  }

  /** Applying the quote rewrite twice changes nothing more. */
  lemma {:induction false} FixQuotesIdempotent(t: string)
    ensures FixQuotes(FixQuotes(t)) == FixQuotes(t)
  {
    var r := FixQuotes(t);
    FixQuotesSound(t);
    assert forall i :: 0 <= i < |r| ==> FixQuotes(r)[i] == r[i];
  }

  /** What the trailing-comma rewrite may remove. */
  predicate Blank(c: char) {
    c == ',' || IsSpace(c)
  }

  /** The text without commas and whitespace. */
  function Keep(s: string): string {
    if |s| == 0 then "" else Keep(s[..|s| - 1]) + (if Blank(s[|s| - 1]) then "" else [s[|s| - 1]])
  }

  lemma {:induction false} KeepAppend(a: string, b: string)
    ensures Keep(a + b) == Keep(a) + Keep(b)
    decreases |b|
  {
    if |b| > 0 {
      assert (a + b)[..|a + b| - 1] == a + b[..|b| - 1];
      KeepAppend(a, b[..|b| - 1]);
    } else {
      assert a + b == a;
    }
  }

  lemma {:induction false} KeepBlank(s: string)
    requires forall i :: 0 <= i < |s| ==> Blank(s[i])
    ensures Keep(s) == ""
    decreases |s|
  {
    if |s| > 0 {
      KeepBlank(s[..|s| - 1]);
    }
  }

  /** A comma at `i` followed, after whitespace, by a closing bracket. */
  predicate ClosesAfterComma(t: string, i: nat)
    requires i < |t|
  {
    t[i] == ',' && SpaceEnd(t, i + 1) < |t| && (t[SpaceEnd(t, i + 1)] == '}' || t[SpaceEnd(t, i + 1)] == ']')
  }

  /** `re.sub(r',\s*([}\]])', r'\1', text)` over `t[i..]`: a comma followed,
      after whitespace, by a closing bracket is dropped with the whitespace;
      the scan resumes after the bracket. */
  function DropTrailingCommas(t: string, i: nat): (r: string)
    requires i <= |t|
    ensures |r| <= |t| - i
    decreases |t| - i
  {
    if i == |t| then ""
    else if ClosesAfterComma(t, i) then
      var e := SpaceEnd(t, i + 1);
      [t[e]] + DropTrailingCommas(t, e + 1)
    else [t[i]] + DropTrailingCommas(t, i + 1)
  }

  lemma {:induction false} KeepCons(c: char, s: string)
    ensures Keep([c] + s) == (if Blank(c) then "" else [c]) + Keep(s)
  {
    KeepAppend([c], s);
    assert [c][..0] == "";
  }

  /** A dropped comma with its whitespace leaves nothing to keep. */
  lemma {:induction false} KeepDropped(t: string, i: nat, e: nat)
    requires i < e < |t| && t[i] == ',' && forall k :: i < k < e ==> IsSpace(t[k])
    ensures Keep(t[i..]) == [t[e]] + Keep(t[e + 1..]) || Blank(t[e])
  {
    assert t[i..] == t[i..e] + ([t[e]] + t[e + 1..]);
    KeepBlank(t[i..e]);
    KeepAppend(t[i..e], [t[e]] + t[e + 1..]);
    KeepCons(t[e], t[e + 1..]);
  }

  /** The rewrite removes only commas and whitespace. */
  lemma {:induction false} DropKeeps(t: string, i: nat)
    requires i <= |t|
    ensures Keep(DropTrailingCommas(t, i)) == Keep(t[i..])
    decreases |t| - i
  {
    if i < |t| {
      if ClosesAfterComma(t, i) {
        DropKeeps(t, SpaceEnd(t, i + 1) + 1);
        DropKeepsClosing(t, i);
      } else {
        DropKeeps(t, i + 1);
        DropKeepsOther(t, i);
      }
    }
  }

  lemma {:induction false} DropKeepsClosing(t: string, i: nat)
    requires i < |t| && ClosesAfterComma(t, i)
    requires SpaceEnd(t, i + 1) < |t|
    requires Keep(DropTrailingCommas(t, SpaceEnd(t, i + 1) + 1)) == Keep(t[SpaceEnd(t, i + 1) + 1..])
    ensures Keep(DropTrailingCommas(t, i)) == Keep(t[i..])
  {
    var e := SpaceEnd(t, i + 1);
    var d := DropTrailingCommas(t, e + 1);
    DropClosing(t, i);
    assert !Blank(t[e]);
    KeepDropped(t, i, e);
    KeepCons(t[e], d);
  }

  lemma {:induction false} DropClosing(t: string, i: nat)
    requires i < |t| && ClosesAfterComma(t, i)
    ensures var e := SpaceEnd(t, i + 1);
      e < |t| && DropTrailingCommas(t, i) == [t[e]] + DropTrailingCommas(t, e + 1)
  {
  }

  lemma {:induction false} DropKeepsOther(t: string, i: nat)
    requires i < |t| && !ClosesAfterComma(t, i)
    requires Keep(DropTrailingCommas(t, i + 1)) == Keep(t[i + 1..])
    ensures Keep(DropTrailingCommas(t, i)) == Keep(t[i..])
  {
    assert t[i..] == [t[i]] + t[i + 1..];
    KeepCons(t[i], t[i + 1..]);
    KeepCons(t[i], DropTrailingCommas(t, i + 1));
  }

  /** A text without commas is left alone. */
  lemma {:induction false} DropNoComma(t: string, i: nat)
    requires i <= |t| && forall k :: i <= k < |t| ==> t[k] != ','
    ensures DropTrailingCommas(t, i) == t[i..]
    decreases |t| - i
  {
    if i < |t| {
      DropNoComma(t, i + 1);
      assert t[i..] == [t[i]] + t[i + 1..];
    }
  }

  predicate IsBracket(c: char) {
    c == '[' || c == ']' || c == '{' || c == '}'
  }

  predicate NoBrackets(s: string) {
    forall i :: 0 <= i < |s| ==> !IsBracket(s[i])
  }

  /** A key of the alias table: a quoted name with no brackets. */
  type Key = k: string | |k| > 0 && k[0] == '"' && NoBrackets(k) witness "\"\""

  datatype Alias = Alias(wrong: Key, right: Key)

  /** The alias table, in its iteration order. */
  const KeyAliases: seq<Alias> := [
    Alias("\"drumbeats\"", "\"drum_notes\""),
    Alias("\"notes\"", "\"midi_notes\""),
    Alias("\"note\"", "\"midi_notes\""),
    Alias("\"drums\"", "\"drum_notes\""),
    Alias("\"melody\"", "\"midi_notes\"")
  ]

  /** A `{` at `i` whose next non-space text is `key`. */
  predicate KeyAfterBrace(t: string, i: nat, key: Key)
    requires i < |t|
  {
    t[i] == '{' && StartsWith(t[SpaceEnd(t, i + 1)..], key)
  }

  /** `re.sub(r'(?<=\{)\s*' + re.escape(wrong), ' ' + right, text)` over
      `t[i..]`: the whitespace after a brace and the key are replaced by a
      space and the new key; the brace itself stays. */
  function RenameAfterBraces(t: string, i: nat, wrong: Key, right: Key): (r: string)
    requires i <= |t|
    decreases |t| - i
  {
    if i == |t| then ""
    else if KeyAfterBrace(t, i, wrong) then
      "{ " + right + RenameAfterBraces(t, SpaceEnd(t, i + 1) + |wrong|, wrong, right)
    else [t[i]] + RenameAfterBraces(t, i + 1, wrong, right)
  }

  /** One alias: the brace rewrite, then, when the text now starts with the
      old key, the replacement of its first occurrence. */
  function AliasKey(t: string, a: Alias): string {
    var u := RenameAfterBraces(t, 0, a.wrong, a.right);
    if StartsWith(LStrip(u), a.wrong) then ReplaceFirst(u, a.wrong, a.right) else u
  }

  function AliasAll(t: string, aliases: seq<Alias>): string
    decreases |aliases|
  {
    if |aliases| == 0 then t else AliasAll(AliasKey(t, aliases[0]), aliases[1..])
  }

  /** `_normalize_json_text`. */
  function Normalize(t: string): string {
    AliasAll(DropTrailingCommas(FixQuotes(t), 0), KeyAliases)
  }

  /** Where no brace is followed by the key, the brace rewrite changes nothing. */
  lemma {:induction false} RenameNone(t: string, i: nat, wrong: Key, right: Key)
    requires i <= |t|
    requires forall j :: i <= j < |t| ==> !KeyAfterBrace(t, j, wrong)
    ensures RenameAfterBraces(t, i, wrong, right) == t[i..]
    decreases |t| - i
  {
    if i < |t| {
      RenameNone(t, i + 1, wrong, right);
      assert t[i..] == [t[i]] + t[i + 1..];
    }
  }

  /** A document whose only brace-and-key is its opening one has exactly
      that key renamed, with one space after the brace, and nothing else
      changed. */
  lemma {:induction false} RenameTopKey(t: string, wrong: Key, right: Key)
    requires |t| > 0 && KeyAfterBrace(t, 0, wrong)
    requires forall j :: 0 < j < |t| ==> !KeyAfterBrace(t, j, wrong)
    ensures RenameAfterBraces(t, 0, wrong, right) == "{ " + right + t[SpaceEnd(t, 1) + |wrong|..]
  {
    RenameNone(t, SpaceEnd(t, 1) + |wrong|, wrong, right);
  }

  /** A text without braces is left alone by the brace rewrite. */
  lemma {:induction false} RenameNoBrace(t: string, wrong: Key, right: Key)
    requires forall k :: 0 <= k < |t| ==> t[k] != '{'
    ensures RenameAfterBraces(t, 0, wrong, right) == t
  {
    RenameNone(t, 0, wrong, right);
  }

  lemma {:induction false} NoBraceAround(ws: string, key: Key, rest: string)
    requires forall k :: 0 <= k < |ws| ==> IsSpace(ws[k])
    requires forall k :: 0 <= k < |rest| ==> rest[k] != '{'
    ensures forall k :: 0 <= k < |ws + key + rest| ==> (ws + key + rest)[k] != '{'
  {
    var t := ws + key + rest;
    forall k | 0 <= k < |t| ensures t[k] != '{' {
      if k < |ws| {
        assert t[k] == ws[k];
      } else if k < |ws| + |key| {
        assert t[k] == key[k - |ws|];
        assert !IsBracket(key[k - |ws|]);
      } else {
        assert t[k] == rest[k - |ws| - |key|];
      }
    }
  }

  /** A text that is whitespace, then the old key, then text with no brace
      in it: the key is renamed where it stands. */
  lemma {:induction false} AliasBareKey(ws: string, a: Alias, rest: string)
    requires forall k :: 0 <= k < |ws| ==> IsSpace(ws[k])
    requires forall k :: 0 <= k < |rest| ==> rest[k] != '{'
    ensures AliasKey(ws + a.wrong + rest, a) == ws + a.right + rest
  {
    var t := ws + a.wrong + rest;
    NoBraceAround(ws, a.wrong, rest);
    RenameNoBrace(t, a.wrong, a.right);
    assert t == ws + (a.wrong + rest);
    StripLeading(ws, a.wrong + rest);
    FindAfterSpaces(ws, a.wrong, rest);
    assert t[..|ws|] == ws;
    assert t[|ws| + |a.wrong|..] == rest;
  }

  /** The first occurrence of a key after leading whitespace. */
  lemma {:induction false} FindAfterSpaces(ws: string, key: Key, rest: string)
    requires forall k :: 0 <= k < |ws| ==> IsSpace(ws[k])
    ensures Find(ws + key + rest, key) == |ws|
  {
    var t := ws + key + rest;
    assert OccursAt(t, key, |ws|) by { assert t[|ws|..|ws| + |key|] == key; }
    forall j | 0 <= j < |ws| ensures !OccursAt(t, key, j) {
      assert t[j] == ws[j];
      if j + |key| <= |t| {
        assert t[j..j + |key|][0] == t[j];
      }
    }
  }

  // ── Brackets survive normalisation ─────────────────────────────────

  lemma {:induction false} FixQuotesCounts(t: string, c: char)
    requires c != '\'' && c != '"'
    ensures Count(FixQuotes(t), c) == Count(t, c)
  {
    CountSame(FixQuotes(t), t, c);
  }

  lemma {:induction false} CountKeep(s: string, c: char)
    requires !Blank(c)
    ensures Count(Keep(s), c) == Count(s, c)
    decreases |s|
  {
    if |s| > 0 {
      var last := s[|s| - 1];
      CountKeep(s[..|s| - 1], c);
      CountAppend(Keep(s[..|s| - 1]), if Blank(last) then "" else [last], c);
      assert [last][..0] == "";
    }
  }

  lemma {:induction false} DropCounts(t: string, c: char)
    requires !Blank(c)
    ensures Count(DropTrailingCommas(t, 0), c) == Count(t, c)
  {
    DropKeeps(t, 0);
    CountKeep(DropTrailingCommas(t, 0), c);
    CountKeep(t, c);
    assert t[0..] == t;
  }

  /** The replaced stretch and its replacement hold the same brackets. */
  lemma {:induction false} RenamedStretch(t: string, i: nat, wrong: Key, right: Key, c: char)
    requires i < |t| && KeyAfterBrace(t, i, wrong) && IsBracket(c)
    ensures Count(t[i..SpaceEnd(t, i + 1) + |wrong|], c) == Count("{ " + right, c)
  {
    var e := SpaceEnd(t, i + 1);
    var n := e + |wrong|;
    assert t[e..n] == wrong;
    var mid := t[i + 1..n];
    assert t[i..n] == [t[i]] + mid;
    forall k | 0 <= k < |mid| ensures mid[k] != c {
      if i + 1 + k < e {
        assert IsSpace(t[i + 1 + k]);
      } else {
        assert mid[k] == wrong[i + 1 + k - e];
      }
    }
    CountHead(t[i], mid, c);
    assert "{ " + right == ['{'] + (" " + right);
    CountHead('{', " " + right, c);
  }

  lemma {:induction false} CountCut(t: string, i: nat, n: nat, c: char)
    requires i <= n <= |t|
    ensures Count(t[i..], c) == Count(t[i..n], c) + Count(t[n..], c)
  {
    assert t[i..] == t[i..n] + t[n..];
    CountAppend(t[i..n], t[n..], c);
  }

  lemma {:induction false} RenameKeyStep(t: string, i: nat, wrong: Key, right: Key, c: char)
    requires i < |t| && IsBracket(c) && KeyAfterBrace(t, i, wrong)
    requires var n := SpaceEnd(t, i + 1) + |wrong|;
      Count(RenameAfterBraces(t, n, wrong, right), c) == Count(t[n..], c)
    ensures Count(RenameAfterBraces(t, i, wrong, right), c) == Count(t[i..], c)
  {
    var n := SpaceEnd(t, i + 1) + |wrong|;
    var rest := RenameAfterBraces(t, n, wrong, right);
    assert RenameAfterBraces(t, i, wrong, right) == ("{ " + right) + rest;
    RenamedStretch(t, i, wrong, right, c);
    CountCut(t, i, n, c);
    CountAppend("{ " + right, RenameAfterBraces(t, n, wrong, right), c);
  }

  lemma {:induction false} RenameCopyStep(t: string, i: nat, wrong: Key, right: Key, c: char)
    requires i < |t| && IsBracket(c) && !KeyAfterBrace(t, i, wrong)
    requires Count(RenameAfterBraces(t, i + 1, wrong, right), c) == Count(t[i + 1..], c)
    ensures Count(RenameAfterBraces(t, i, wrong, right), c) == Count(t[i..], c)
  {
    CountCut(t, i, i + 1, c);
    assert t[i..i + 1] == [t[i]];
    CountAppend([t[i]], RenameAfterBraces(t, i + 1, wrong, right), c);
  }

  lemma {:induction false} RenameCounts(t: string, i: nat, wrong: Key, right: Key, c: char)
    requires i <= |t| && IsBracket(c)
    ensures Count(RenameAfterBraces(t, i, wrong, right), c) == Count(t[i..], c)
    decreases |t| - i
  {
    if i < |t| {
      if KeyAfterBrace(t, i, wrong) {
        RenameCounts(t, SpaceEnd(t, i + 1) + |wrong|, wrong, right, c);
        RenameKeyStep(t, i, wrong, right, c);
      } else {
        RenameCounts(t, i + 1, wrong, right, c);
        RenameCopyStep(t, i, wrong, right, c);
      }
    }
  }

  lemma {:induction false} ReplaceCounts(u: string, wrong: Key, right: Key, c: char)
    requires IsBracket(c)
    ensures Count(ReplaceFirst(u, wrong, right), c) == Count(u, c)
  {
    var k := Find(u, wrong);
    if k >= 0 {
      assert u == u[..k] + wrong + u[k + |wrong|..];
      CountNone(wrong, c);
      CountNone(right, c);
      CountAppend(u[..k] + wrong, u[k + |wrong|..], c);
      CountAppend(u[..k], wrong, c);
      CountAppend(u[..k] + right, u[k + |wrong|..], c);
      CountAppend(u[..k], right, c);
    }
  }

  lemma {:induction false} AliasAllCounts(t: string, aliases: seq<Alias>, c: char)
    requires IsBracket(c)
    ensures Count(AliasAll(t, aliases), c) == Count(t, c)
    decreases |aliases|
  {
    if |aliases| > 0 {
      var a := aliases[0];
      RenameCounts(t, 0, a.wrong, a.right, c);
      ReplaceCounts(RenameAfterBraces(t, 0, a.wrong, a.right), a.wrong, a.right, c);
      assert t[0..] == t;
      AliasAllCounts(AliasKey(t, a), aliases[1..], c);
    }
  }

  /** Normalising never adds or removes a bracket or a brace, so the repair
      step counts the same openers and closers the reply had. */
  lemma {:induction false} NormalizeCounts(t: string, c: char)
    requires IsBracket(c)
    ensures Count(Normalize(t), c) == Count(t, c)
  {
    FixQuotesCounts(t, c);
    DropCounts(FixQuotes(t), c);
    AliasAllCounts(DropTrailingCommas(FixQuotes(t), 0), KeyAliases, c);
  }

  // ── Truncation repair ──────────────────────────────────────────────

  /** The text up to and including its last `}`, provided that brace is not
      the first character; trailing whitespace is dropped first. */
  function LastBraceCut(text: string): Option<string> {
    var trimmed := RStrip(text);
    var last := RFind(trimmed, '}');
    if last > 0 then Some(trimmed[..last + 1]) else None
  }

  /** Closes the arrays, then the objects, that `cut` leaves open. */
  function CloseOpen(cut: string): string {
    cut + Repeat(']', Count(cut, '[') - Count(cut, ']')) + Repeat('}', Count(cut, '{') - Count(cut, '}'))
  }

  function Repair(text: string): Option<string> {
    match LastBraceCut(text)
    case Some(cut) => Some(CloseOpen(cut))
    case None => None
  }

  /** The cut exists exactly when a `}` stands after the first character; it
      is then the text up to the last `}`. */
  lemma {:induction false} CutShape(text: string)
    ensures LastBraceCut(text).Some? <==> exists k :: 0 < k < |text| && text[k] == '}'
    ensures LastBraceCut(text).Some? ==>
      var cut := LastBraceCut(text).value;
      && 2 <= |cut| <= |text| && cut == text[..|cut|] && cut[|cut| - 1] == '}'
      && forall k :: |cut| <= k < |text| ==> text[k] != '}'
  {
    var trimmed := RStrip(text);
    var last := RFind(trimmed, '}');
    assert forall k :: |trimmed| <= k < |text| ==> text[k] != '}';
    assert forall k :: 0 <= k < |trimmed| ==> trimmed[k] == text[k];
  }

  /** After the repair no array or object is left open, and an already
      balanced cut is left as it was. */
  lemma {:induction false} CloseOpenBalances(cut: string)
    ensures Count(CloseOpen(cut), '[') <= Count(CloseOpen(cut), ']')
    ensures Count(CloseOpen(cut), '{') <= Count(CloseOpen(cut), '}')
    ensures Count(cut, '[') >= Count(cut, ']') ==> Count(CloseOpen(cut), '[') == Count(CloseOpen(cut), ']')
    ensures Count(cut, '{') >= Count(cut, '}') ==> Count(CloseOpen(cut), '{') == Count(CloseOpen(cut), '}')
    ensures Count(cut, '[') <= Count(cut, ']') && Count(cut, '{') <= Count(cut, '}') ==> CloseOpen(cut) == cut
  {
    var arrays := Repeat(']', Count(cut, '[') - Count(cut, ']'));
    var objects := Repeat('}', Count(cut, '{') - Count(cut, '}'));
    forall c | c == '[' || c == ']' || c == '{' || c == '}'
      ensures Count(CloseOpen(cut), c) == Count(cut, c) + Count(arrays, c) + Count(objects, c)
    {
      CountAppend(cut + arrays, objects, c);
      CountAppend(cut, arrays, c);
    }
    CountRepeat(']', '[', Count(cut, '[') - Count(cut, ']'));
    CountRepeat(']', ']', Count(cut, '[') - Count(cut, ']'));
    CountRepeat(']', '{', Count(cut, '[') - Count(cut, ']'));
    CountRepeat(']', '}', Count(cut, '[') - Count(cut, ']'));
    CountRepeat('}', '[', Count(cut, '{') - Count(cut, '}'));
    CountRepeat('}', ']', Count(cut, '{') - Count(cut, '}'));
    CountRepeat('}', '{', Count(cut, '{') - Count(cut, '}'));
    CountRepeat('}', '}', Count(cut, '{') - Count(cut, '}'));
    if Count(cut, '[') <= Count(cut, ']') && Count(cut, '{') <= Count(cut, '}') {
      assert arrays == "" && objects == "";
      assert CloseOpen(cut) == cut + "" + "";
    }
  }

  // ── parse_generate_response ────────────────────────────────────────

  /** A reply that starts with a fence is replaced by what the first fence
      pair encloses, less a "json" tag, stripped. */
  function Unfence(t: string): string {
    if StartsWith(t, Fence) then
      var parts := Split(t, Fence);
      if |parts| >= 2 then
        var inner := parts[1];
        Strip(if StartsWith(inner, "json") then inner[4..] else inner)
      else t
    else t
  }

  predicate Opens(c: char) {
    c == '{' || c == '['
  }

  /** `min` of `text.find("{")` and `text.find("[")` over those found, or -1
      when neither is. */
  function FirstOpen(t: string): (k: int)
    ensures k == -1 <==> forall j :: 0 <= j < |t| ==> !Opens(t[j])
    ensures k != -1 ==> 0 <= k < |t| && Opens(t[k]) && forall j :: 0 <= j < k ==> !Opens(t[j])
  {
    var brace := Find(t, "{");
    var bracket := Find(t, "[");
    assert forall k :: OccursAt(t, "{", k) <==> 0 <= k < |t| && t[k] == '{' by {
      forall k { OccursChar(t, '{', k); }
    }
    assert forall k :: OccursAt(t, "[", k) <==> 0 <= k < |t| && t[k] == '[' by {
      forall k { OccursChar(t, '[', k); }
    }
    if brace < 0 && bracket < 0 then -1
    else if brace < 0 then bracket
    else if bracket < 0 then brace
    else if brace < bracket then brace
    else bracket
  }

  /** Prose before the first `{` or `[` is dropped; a text that starts with
      one, or has none, is kept whole. */
  function SkipPreamble(t: string): (r: string)
    ensures |r| <= |t| && r == t[|t| - |r|..]
    ensures |t| > 0 && Opens(t[0]) ==> r == t
    ensures (forall k :: 0 <= k < |t| ==> !Opens(t[k])) ==> r == t
    ensures (exists k :: 0 <= k < |t| && Opens(t[k])) ==>
              |r| > 0 && Opens(r[0]) && forall k :: 0 <= k < |t| - |r| ==> !Opens(t[k])
  {
    if |t| > 0 && !Opens(t[0]) then
      var start := FirstOpen(t);
      if start == -1 then t else t[start..]
    else t
  }

  /** The text the parser is first given, before normalisation. */
  function Prepare(original: string): string {
    SkipPreamble(Unfence(Strip(original)))
  }

  /** A top-level array becomes the notes of an object. */
  function Wrap(d: Json): Json {
    if d.JObj? then d else JObj(map["midi_notes" := d])
  }

  /** `parse_generate_response`: the prepared and normalised text parsed
      directly, else its truncation repair, else the fenced blocks of the
      original reply. The first two give one object. */
  function ParseGenerateResponse(original: string, parse: Parser): (r: seq<Json>)
    ensures (|r| == 1 && r[0].JObj?) || r == ExtractJsonBlocks(original, parse)
  {
    var text := Normalize(Prepare(original));
    ParsedOrBlocks(ParseOrRepair(text, parse), original, parse)
  }

  /** One object from the parse, else the fenced blocks of the original. */
  function ParsedOrBlocks(parsed: Option<Json>, original: string, parse: Parser): (r: seq<Json>)
    ensures parsed.Some? ==> |r| == 1 && r[0].JObj? && r[0] == Wrap(parsed.value)
    ensures parsed.None? ==> r == ExtractJsonBlocks(original, parse)
  {
    match parsed
    case Some(d) => [Wrap(d)]
    case None => ExtractJsonBlocks(original, parse)
  }

  /** The direct parse, else the parse of the truncation repair. */
  function ParseOrRepair(text: string, parse: Parser): Option<Json> {
    match parse(text)
    case Some(d) => Some(d)
    case None =>
      match Repair(text)
      case Some(fixed) => parse(fixed)
      case None => None
  }

  /** Prose with no `{` or `[` before the JSON is skipped entirely. */
  lemma {:induction false} PreambleSkipped(pre: string, body: string)
    requires forall k :: 0 <= k < |pre| ==> !Opens(pre[k])
    requires |body| > 0 && Opens(body[0])
    ensures SkipPreamble(pre + body) == body
  {
    var t := pre + body;
    assert Opens(t[|pre|]);
    var r := SkipPreamble(t);
    assert forall k :: 0 <= k < |pre| ==> t[k] == pre[k];
    assert |r| == |body|;
    assert t[|pre|..] == body;
  }

  /** The part between the first two fences. */
  lemma {:induction false} FenceParts(inner: string, rest: string)
    requires NoTicks(inner)
    ensures var parts := Split(Fence + inner + Fence + rest, Fence);
      |parts| >= 2 && parts[1] == inner
  {
    assert Fence + inner + Fence + rest == Fence + (inner + Fence + rest);
    SplitAtStart(Fence, inner + Fence + rest);
    SplitAfterClean(inner, Fence, rest);
  }

  lemma {:induction false} UnfenceFenced(body: string, rest: string)
    requires NoTicks(body)
    ensures Unfence(Fence + "json" + body + Fence + rest) == Strip(body)
  {
    var inner := "json" + body;
    var t := Fence + inner + Fence + rest;
    assert Fence + "json" + body + Fence + rest == t;
    assert NoTicks(inner);
    FenceParts(inner, rest);
    assert t[..|Fence|] == Fence;
    assert inner[..4] == "json" && inner[4..] == body;
    UnfenceOf(t, inner);
  }

  /** What `Unfence` reads once the part after the opening fence is known. */
  lemma {:induction false} UnfenceOf(t: string, inner: string)
    requires StartsWith(t, Fence)
    requires var parts := Split(t, Fence); |parts| >= 2 && parts[1] == inner
    ensures Unfence(t) == Strip(if StartsWith(inner, "json") then inner[4..] else inner)
  {
  }

  /** A reply that opens with a "```json" fence is read from inside it,
      whatever follows the closing fence. */
  lemma {:induction false} FencedPrepared(body: string, rest: string)
    requires NoTicks(body)
    requires |rest| > 0 ==> !IsSpace(rest[|rest| - 1])
    requires |Strip(body)| > 0 && Opens(Strip(body)[0])
    ensures Prepare(Fence + "json" + body + Fence + rest) == Strip(body)
  {
    var o := Fence + "json" + body + Fence + rest;
    assert o[0] == '`';
    assert |rest| > 0 ==> o[|o| - 1] == rest[|rest| - 1];
    StripTrimmed(o);
    UnfenceFenced(body, rest);
  }

  /** A fenced reply whose body parses after normalisation gives that value,
      wrapped as an object if it was an array. */
  lemma {:induction false} ParseFenced(body: string, rest: string, parse: Parser)
    requires NoTicks(body)
    requires |rest| > 0 ==> !IsSpace(rest[|rest| - 1])
    requires |Strip(body)| > 0 && Opens(Strip(body)[0])
    requires parse(Normalize(Strip(body))).Some?
    ensures ParseGenerateResponse(Fence + "json" + body + Fence + rest, parse) == [Wrap(parse(Normalize(Strip(body))).value)]
  {
    var o := Fence + "json" + body + Fence + rest;
    FencedPrepared(body, rest);
    ParsedFirst(o, Strip(body), parse);
  }

  /** A reply whose prepared text parses directly is that one value. */
  lemma {:induction false} ParsedFirst(original: string, prepared: string, parse: Parser)
    requires Prepare(original) == prepared && parse(Normalize(prepared)).Some?
    ensures ParseGenerateResponse(original, parse) == [Wrap(parse(Normalize(prepared)).value)]
  {
    assert ParseOrRepair(Normalize(prepared), parse) == parse(Normalize(prepared));
  }

  /** Whatever succeeds first is returned as one object, a top-level array
      becoming its "midi_notes"; when neither the text nor its repair
      parses, the blocks come from the original reply, not the prepared
      text. */
  lemma {:induction false} ParseChain(original: string, parse: Parser)
    ensures var r := ParseGenerateResponse(original, parse);
      var got := ParseOrRepair(Normalize(Prepare(original)), parse);
      && (got.Some? && got.value.JObj? ==> r == [got.value])
      && (got.Some? && !got.value.JObj? ==> r == [JObj(map["midi_notes" := got.value])])
      && (got.None? ==> r == ExtractJsonBlocks(original, parse))
  {
  }

  /** A reply whose direct or repaired parse is an object gives that one block. */
  lemma {:induction false} ParsedObject(original: string, parse: Parser, b: Json)
    requires ParseOrRepair(Normalize(Prepare(original)), parse) == Some(b) && b.JObj?
    ensures ParseGenerateResponse(original, parse) == [b]
  {
    ParseChain(original, parse);
  }
}
