/** The note validator/clamper (`validate_and_fix_notes`), the pattern tiler
    (`_extend_pattern`) and the note counter (`_get_note_count`) of the
    generation pipeline, over parsed JSON blocks. */
module Notes {
  import opened Json

  // ── Shapes ──────────────────────────────────────────────────────────

  /** The two keys whose lists hold notes, in the order the server visits them. */
  const MidiNotes: string := "midi_notes"
  const DrumNotes: string := "drum_notes"
  const CcMessages: string := "cc_messages"

  predicate IsNoteKey(k: string) {
    k == MidiNotes || k == DrumNotes
  }

  /** `isinstance(v, list)` for the value stored under `key`, if any. */
  predicate HasList(m: map<string, Json>, key: string) {
    key in m && m[key].JArr?
  }

  function MaxReal(a: real, b: real): real {
    if b > a then b else a
  }

  /** The bounds `MIDI_FORMAT_SCHEMA` places on a note: integer pitch in
      0..127, integer velocity in 1..127, start_beat >= 0 and
      duration_beats >= 0.125. */
  predicate ValidNote(j: Json) {
    && j.JObj?
    && "pitch" in j.fields && j.fields["pitch"].JInt? && 0 <= j.fields["pitch"].i <= 127
    && "velocity" in j.fields && j.fields["velocity"].JInt? && 1 <= j.fields["velocity"].i <= 127
    && "start_beat" in j.fields && j.fields["start_beat"].JFloat? && j.fields["start_beat"].f >= 0.0
    && "duration_beats" in j.fields && j.fields["duration_beats"].JFloat?
    && j.fields["duration_beats"].f >= 0.125
  }

  /** A controller message after clamping: cc_number and value in 0..127, beat >= 0. */
  predicate ValidCc(j: Json) {
    && j.JObj?
    && "cc_number" in j.fields && j.fields["cc_number"].JInt? && 0 <= j.fields["cc_number"].i <= 127
    && "value" in j.fields && j.fields["value"].JInt? && 0 <= j.fields["value"].i <= 127
    && "beat" in j.fields && j.fields["beat"].JFloat? && j.fields["beat"].f >= 0.0
  }

  /** An entry the validator keeps: a dict with a "pitch" key. */
  predicate KeptNote(j: Json) {
    j.JObj? && "pitch" in j.fields
  }

  /** A controller entry the validator keeps: a dict with a "cc_number" key. */
  predicate KeptCc(j: Json) {
    j.JObj? && "cc_number" in j.fields
  }

  predicate IntIfPresent(m: map<string, Json>, k: string) {
    k in m ==> IntAccepts(m[k])
  }

  predicate FloatIfPresent(m: map<string, Json>, k: string) {
    k in m ==> FloatAccepts(m[k])
  }

  /** What `int()` / `float()` need of a kept note so that they do not raise. */
  predicate NoteCoercible(m: map<string, Json>) {
    && "pitch" in m && IntAccepts(m["pitch"])
    && IntIfPresent(m, "velocity")
    && FloatIfPresent(m, "start_beat")
    && FloatIfPresent(m, "duration_beats")
  }

  predicate CcCoercible(m: map<string, Json>) {
    && "cc_number" in m && IntAccepts(m["cc_number"])
    && IntIfPresent(m, "value")
    && FloatIfPresent(m, "beat")
  }

  predicate NotesCoercible(items: seq<Json>) {
    forall i :: 0 <= i < |items| && KeptNote(items[i]) ==> NoteCoercible(items[i].fields)
  }

  predicate CcsCoercible(items: seq<Json>) {
    forall i :: 0 <= i < |items| && KeptCc(items[i]) ==> CcCoercible(items[i].fields)
  }

  /** The validator runs on `block` without raising: it is a dict, and every
      entry it keeps has numeric fields. */
  predicate BlockCoercible(b: Json) {
    && b.JObj?
    && (HasList(b.fields, MidiNotes) ==> NotesCoercible(b.fields[MidiNotes].items))
    && (HasList(b.fields, DrumNotes) ==> NotesCoercible(b.fields[DrumNotes].items))
    && (HasList(b.fields, CcMessages) ==> CcsCoercible(b.fields[CcMessages].items))
  }

  predicate AllValidNotes(items: seq<Json>) {
    forall i :: 0 <= i < |items| ==> ValidNote(items[i])
  }

  predicate AllValidCcs(items: seq<Json>) {
    forall i :: 0 <= i < |items| ==> ValidCc(items[i])
  }

  /** A block as the validator leaves it. */
  predicate ValidatedBlock(b: Json) {
    && b.JObj?
    && (HasList(b.fields, MidiNotes) ==> AllValidNotes(b.fields[MidiNotes].items))
    && (HasList(b.fields, DrumNotes) ==> AllValidNotes(b.fields[DrumNotes].items))
    && (HasList(b.fields, CcMessages) ==> AllValidCcs(b.fields[CcMessages].items))
  }

  // ── validate_and_fix_notes ─────────────────────────────────────────

  /** `r` is the integer `v` pulled into `lo..hi`: the nearer bound when `v`
      lies outside, `v` itself otherwise. */
  predicate PulledInto(lo: int, hi: int, v: int, r: Json) {
    && r.JInt?
    && (v < lo ==> r.i == lo)
    && (v > hi ==> r.i == hi)
    && (lo <= v <= hi ==> r.i == v)
  }

  /** `r` is the float `v` raised to at least `lo`. */
  predicate RaisedTo(lo: real, v: real, r: Json) {
    && r.JFloat?
    && (v < lo ==> r.f == lo)
    && (v >= lo ==> r.f == v)
  }

  /** Clamps one kept note; keys other than the four note fields are untouched,
      absent fields get the defaults velocity 100, start_beat 0, duration 0.25. */
  function FixNote(m: map<string, Json>): (r: map<string, Json>)
    requires NoteCoercible(m)
    ensures ValidNote(JObj(r))
    ensures r.Keys == m.Keys + {"pitch", "velocity", "start_beat", "duration_beats"}
    ensures forall k :: k in m && k !in {"pitch", "velocity", "start_beat", "duration_beats"} ==> r[k] == m[k]
    ensures PulledInto(0, 127, PyInt(m["pitch"]), r["pitch"])
    ensures "velocity" in m ==> PulledInto(1, 127, PyInt(m["velocity"]), r["velocity"])
    ensures "velocity" !in m ==> r["velocity"] == JInt(100)
    ensures "start_beat" in m ==> RaisedTo(0.0, PyFloat(m["start_beat"]), r["start_beat"])
    ensures "start_beat" !in m ==> r["start_beat"] == JFloat(0.0)
    ensures "duration_beats" in m ==> RaisedTo(0.125, PyFloat(m["duration_beats"]), r["duration_beats"])
    ensures "duration_beats" !in m ==> r["duration_beats"] == JFloat(0.25)
    ensures ValidNote(JObj(m)) ==> r == m
  {
    m["pitch" := JInt(Clamp(0, 127, PyInt(m["pitch"])))]
     ["velocity" := JInt(Clamp(1, 127, PyInt(Get(m, "velocity", JInt(100)))))]
     ["start_beat" := JFloat(MaxReal(0.0, PyFloat(Get(m, "start_beat", JInt(0)))))]
     ["duration_beats" := JFloat(MaxReal(0.125, PyFloat(Get(m, "duration_beats", JFloat(0.25)))))]
  }

  /** Clamps one kept controller message (value default 64, beat default 0). */
  function FixCc(m: map<string, Json>): (r: map<string, Json>)
    requires CcCoercible(m)
    ensures ValidCc(JObj(r))
    ensures r.Keys == m.Keys + {"cc_number", "value", "beat"}
    ensures forall k :: k in m && k !in {"cc_number", "value", "beat"} ==> r[k] == m[k]
    ensures PulledInto(0, 127, PyInt(m["cc_number"]), r["cc_number"])
    ensures "value" in m ==> PulledInto(0, 127, PyInt(m["value"]), r["value"])
    ensures "value" !in m ==> r["value"] == JInt(64)
    ensures "beat" in m ==> RaisedTo(0.0, PyFloat(m["beat"]), r["beat"])
    ensures "beat" !in m ==> r["beat"] == JFloat(0.0)
    ensures ValidCc(JObj(m)) ==> r == m
  {
    m["cc_number" := JInt(Clamp(0, 127, PyInt(m["cc_number"])))]
     ["value" := JInt(Clamp(0, 127, PyInt(Get(m, "value", JInt(64)))))]
     ["beat" := JFloat(MaxReal(0.0, PyFloat(Get(m, "beat", JInt(0)))))]
  }

  /** The `cleaned` list built from one note list: entries that are not dicts
      or lack "pitch" are dropped, the rest are clamped, order is kept. */
  function FixNotes(items: seq<Json>): (r: seq<Json>)
    requires NotesCoercible(items)
    ensures |r| <= |items|
    ensures AllValidNotes(r)
  {
    if |items| == 0 then []
    else
      var head := if KeptNote(items[0]) then [JObj(FixNote(items[0].fields))] else [];
      head + FixNotes(items[1..])
  }

  /** The `valid_cc` list built from a controller list. */
  function FixCcs(items: seq<Json>): (r: seq<Json>)
    requires CcsCoercible(items)
    ensures |r| <= |items|
    ensures AllValidCcs(r)
  {
    if |items| == 0 then []
    else
      var head := if KeptCc(items[0]) then [JObj(FixCc(items[0].fields))] else [];
      head + FixCcs(items[1..])
  }

  function FixNoteList(m: map<string, Json>, key: string): map<string, Json>
    requires HasList(m, key) ==> NotesCoercible(m[key].items)
  {
    if HasList(m, key) then m[key := JArr(FixNotes(m[key].items))] else m
  }

  function FixCcList(m: map<string, Json>): map<string, Json>
    requires HasList(m, CcMessages) ==> CcsCoercible(m[CcMessages].items)
  {
    if HasList(m, CcMessages) then m[CcMessages := JArr(FixCcs(m[CcMessages].items))] else m
  }

  function ValidateBlock(b: Json): (r: Json)
    requires BlockCoercible(b)
    ensures ValidatedBlock(r)
    ensures r.JObj? && r.fields.Keys == b.fields.Keys
    ensures forall k :: k in b.fields && !IsNoteKey(k) && k != CcMessages ==> r.fields[k] == b.fields[k]
    ensures forall k :: k in b.fields && !b.fields[k].JArr? ==> r.fields[k] == b.fields[k]
    ensures HasList(b.fields, MidiNotes) ==> r.fields[MidiNotes] == JArr(FixNotes(b.fields[MidiNotes].items))
    ensures HasList(b.fields, DrumNotes) ==> r.fields[DrumNotes] == JArr(FixNotes(b.fields[DrumNotes].items))
    ensures HasList(b.fields, CcMessages) ==> r.fields[CcMessages] == JArr(FixCcs(b.fields[CcMessages].items))
  {
    assert MidiNotes[0] != DrumNotes[0] && MidiNotes[0] != CcMessages[0] && DrumNotes[0] != CcMessages[0];
    var m1 := FixNoteList(b.fields, MidiNotes);
    var m2 := FixNoteList(m1, DrumNotes);
    JObj(FixCcList(m2))
  }

  /** `validate_and_fix_notes`: every block is validated independently, in order. */
  function ValidateAndFixNotes(blocks: seq<Json>): (r: seq<Json>)
    requires forall i :: 0 <= i < |blocks| ==> BlockCoercible(blocks[i])
    ensures |r| == |blocks|
    ensures forall i :: 0 <= i < |r| ==> ValidatedBlock(r[i])
    ensures forall i :: 0 <= i < |r| ==>
      r[i].JObj? && blocks[i].JObj? && r[i].fields.Keys == blocks[i].fields.Keys
    ensures forall i, k ::
      0 <= i < |r| && blocks[i].JObj? && k in blocks[i].fields && !IsNoteKey(k) && k != CcMessages
      ==> r[i].JObj? && r[i].fields[k] == blocks[i].fields[k]
    ensures forall i :: 0 <= i < |r| ==> r[i] == ValidateBlock(blocks[i])
  {
    var r := seq(|blocks|, i requires 0 <= i < |blocks| => ValidateBlock(blocks[i]));
    assert forall i :: 0 <= i < |r| ==> BlockCoercible(blocks[i]) && r[i] == ValidateBlock(blocks[i]);
    r
  }

  // ── Properties of the validator ─────────────────────────────────────

  /** The note filter distributes over concatenation: order is preserved and
      each entry is decided on its own. */
  lemma {:induction false} FixNotesAppend(a: seq<Json>, b: seq<Json>)
    requires NotesCoercible(a) && NotesCoercible(b)
    ensures NotesCoercible(a + b)
    ensures FixNotes(a + b) == FixNotes(a) + FixNotes(b)
    decreases |a|
  {
    assert NotesCoercible(a + b) by {
      forall i | 0 <= i < |a + b| && KeptNote((a + b)[i])
        ensures NoteCoercible((a + b)[i].fields)
      {
        if i >= |a| { assert (a + b)[i] == b[i - |a|]; }
      }
    }
    if |a| > 0 {
      assert (a + b)[1..] == a[1..] + b;
      FixNotesAppend(a[1..], b);
    } else {
      assert a + b == b;
    }
  }

  /** On one entry the filter keeps and clamps a dict with "pitch", and drops
      anything else. */
  lemma {:induction false} FixNotesSingle(x: Json)
    requires KeptNote(x) ==> NoteCoercible(x.fields)
    ensures NotesCoercible([x])
    ensures KeptNote(x) ==> FixNotes([x]) == [JObj(FixNote(x.fields))]
    ensures !KeptNote(x) ==> FixNotes([x]) == []
  {
    assert [x][1..] == [];
  }

  /** The controller filter distributes over concatenation as well. */
  lemma {:induction false} FixCcsAppend(a: seq<Json>, b: seq<Json>)
    requires CcsCoercible(a) && CcsCoercible(b)
    ensures CcsCoercible(a + b)
    ensures FixCcs(a + b) == FixCcs(a) + FixCcs(b)
    decreases |a|
  {
    assert CcsCoercible(a + b) by {
      forall i | 0 <= i < |a + b| && KeptCc((a + b)[i])
        ensures CcCoercible((a + b)[i].fields)
      {
        if i >= |a| { assert (a + b)[i] == b[i - |a|]; }
      }
    }
    if |a| > 0 {
      assert (a + b)[1..] == a[1..] + b;
      FixCcsAppend(a[1..], b);
    } else {
      assert a + b == a + b;
      assert a + b == b;
    }
  }

  /** On one entry the controller filter keeps and clamps a dict with
      "cc_number", and drops anything else. */
  lemma {:induction false} FixCcsSingle(x: Json)
    requires KeptCc(x) ==> CcCoercible(x.fields)
    ensures CcsCoercible([x])
    ensures KeptCc(x) ==> FixCcs([x]) == [JObj(FixCc(x.fields))]
    ensures !KeptCc(x) ==> FixCcs([x]) == []
  {
    assert [x][1..] == [];
  }

  /** A pitch the model wrote as a string, such as "60", is read with
      `int()` and clamped like a number, and the defaults fill the rest. */
  lemma {:induction false} StringPitch(n: int, m: map<string, Json>)
    requires m == map["pitch" := JStr(IntText(n))]
    ensures NoteCoercible(m)
    ensures FixNote(m)["pitch"] == JInt(Clamp(0, 127, n))
    ensures FixNote(m)["velocity"] == JInt(100)
  {
    IntTextAccepted(n);
    assert m["pitch"] == JStr(IntText(n));
    assert NoteCoercible(m);
  }

  /** ... and such a note is kept by the list filter. */
  lemma {:induction false} StringPitchKept(n: int, x: Json)
    requires x == JObj(map["pitch" := JStr(IntText(n))])
    ensures NotesCoercible([x])
    ensures FixNotes([x]) == [JObj(FixNote(x.fields))]
  {
    StringPitch(n, x.fields);
    FixNotesSingle(x);
  }

  /** Validating a single block is validating that block. */
  lemma {:induction false} ValidateSingle(b: Json)
    requires BlockCoercible(b)
    ensures ValidateAndFixNotes([b]) == [ValidateBlock(b)]
  {
    var r := ValidateAndFixNotes([b]);
    assert |r| == 1;
  }

  /** A block whose one note has a string pitch is validated, not refused:
      the note comes out clamped and completed with the defaults. */
  lemma {:induction false} StringPitchBlock(n: int, b: Json)
    requires b == JObj(map[MidiNotes := JArr([JObj(map["pitch" := JStr(IntText(n))])])])
    ensures BlockCoercible(b)
    ensures ValidateBlock(b) == JObj(map[MidiNotes := JArr([JObj(FixNote(map["pitch" := JStr(IntText(n))]))])])
  {
    var x := JObj(map["pitch" := JStr(IntText(n))]);
    StringPitchKept(n, x);
    assert b.fields[MidiNotes].items == [x];
    assert DrumNotes[0] != MidiNotes[0] && CcMessages[0] != MidiNotes[0];
    assert DrumNotes !in b.fields && CcMessages !in b.fields;
  }

  /** Clamping a list of already valid notes changes nothing. */
  lemma {:induction false} FixNotesValid(items: seq<Json>)
    requires AllValidNotes(items)
    ensures NotesCoercible(items)
    ensures FixNotes(items) == items
  {
    if |items| > 0 {
      FixNotesValid(items[1..]);
      assert [items[0]] + items[1..] == items;
    }
  }

  lemma {:induction false} FixCcsValid(items: seq<Json>)
    requires AllValidCcs(items)
    ensures CcsCoercible(items)
    ensures FixCcs(items) == items
  {
    if |items| > 0 {
      FixCcsValid(items[1..]);
      assert [items[0]] + items[1..] == items;
    }
  }

  /** A validated block passes through the validator unchanged. */
  lemma {:induction false} ValidateBlockValidated(b: Json)
    requires ValidatedBlock(b)
    ensures BlockCoercible(b)
    ensures ValidateBlock(b) == b
  {
    NoteListUnchanged(b.fields, MidiNotes);
    NoteListUnchanged(b.fields, DrumNotes);
    CcListUnchanged(b.fields);
  }

  lemma {:induction false} NoteListUnchanged(m: map<string, Json>, key: string)
    requires HasList(m, key) ==> AllValidNotes(m[key].items)
    ensures HasList(m, key) ==> NotesCoercible(m[key].items)
    ensures FixNoteList(m, key) == m
  {
    if HasList(m, key) {
      FixNotesValid(m[key].items);
      assert m[key := JArr(m[key].items)] == m;
    }
  }

  lemma {:induction false} CcListUnchanged(m: map<string, Json>)
    requires HasList(m, CcMessages) ==> AllValidCcs(m[CcMessages].items)
    ensures HasList(m, CcMessages) ==> CcsCoercible(m[CcMessages].items)
    ensures FixCcList(m) == m
  {
    if HasList(m, CcMessages) {
      FixCcsValid(m[CcMessages].items);
      assert m[CcMessages := JArr(m[CcMessages].items)] == m;
    }
  }

  /** `validate_and_fix_notes` is idempotent. */
  lemma {:induction false} ValidateIdempotent(blocks: seq<Json>)
    requires forall i :: 0 <= i < |blocks| ==> BlockCoercible(blocks[i])
    ensures var once := ValidateAndFixNotes(blocks);
      (forall i :: 0 <= i < |once| ==> BlockCoercible(once[i])) &&
      ValidateAndFixNotes(once) == once
  {
    var once := ValidateAndFixNotes(blocks);
    forall i | 0 <= i < |once| ensures BlockCoercible(once[i]) && ValidateBlock(once[i]) == once[i] {
      ValidateBlockValidated(once[i]);
    }
  }

  /** Clamping examples: pitch 200 becomes 127, pitch -5 becomes 0, velocity
      0 becomes 1, duration 0 becomes 0.125, and pitch 60.9 truncates to 60. */
  lemma {:induction false} ClampExamples()
    ensures FixNote(map["pitch" := JInt(200)])["pitch"] == JInt(127)
    ensures FixNote(map["pitch" := JInt(-5)])["pitch"] == JInt(0)
    ensures FixNote(map["pitch" := JInt(60), "velocity" := JInt(0)])["velocity"] == JInt(1)
    ensures FixNote(map["pitch" := JInt(60), "duration_beats" := JInt(0)])["duration_beats"] == JFloat(0.125)
    ensures FixNote(map["pitch" := JFloat(60.9)])["pitch"] == JInt(60)
  {
  }

  // ── _extend_pattern ────────────────────────────────────────────────

  /** What the tiler reads of a note: numeric start_beat and duration_beats. */
  predicate Timed(j: Json) {
    && j.JObj?
    && "start_beat" in j.fields && IsNumeric(j.fields["start_beat"])
    && "duration_beats" in j.fields && IsNumeric(j.fields["duration_beats"])
  }

  predicate AllTimed(items: seq<Json>) {
    forall i :: 0 <= i < |items| ==> Timed(items[i])
  }

  function NoteEnd(j: Json): real
    requires Timed(j)
  {
    PyFloat(j.fields["start_beat"]) + PyFloat(j.fields["duration_beats"])
  }

  /** `max_end`: starts at 0.0 and keeps the largest note end seen. */
  function MaxEnd(items: seq<Json>): (r: real)
    requires AllTimed(items)
    ensures r >= 0.0
    ensures forall i :: 0 <= i < |items| ==> NoteEnd(items[i]) <= r
    ensures r == 0.0 || exists i :: 0 <= i < |items| && r == NoteEnd(items[i])
  {
    if |items| == 0 then 0.0
    else
      var init := items[..|items| - 1];
      var m := MaxEnd(init);
      var e := NoteEnd(items[|items| - 1]);
      assert forall i :: 0 <= i < |init| ==> init[i] == items[i];
      if e > m then e else m
  }

  /** `pattern_len = max(4.0, float(int((max_end + 3.99) // 4) * 4))`: a whole
      number of 4-beat bars, at least one. The 3.99 makes it a ceiling only up
      to a tolerance of 0.01 beat (see `PatternLenUndershoots`). */
  function PatternLen(items: seq<Json>): (r: real)
    requires AllTimed(items)
    ensures r >= 4.0
    ensures r == ((r / 4.0).Floor as real) * 4.0
    ensures r > MaxEnd(items) - 0.01
    ensures r == 4.0 || r <= MaxEnd(items) + 3.99
  {
    var x := MaxEnd(items);
    var bars := ((x + 3.99) / 4.0).Floor;
    WholeBars(x, bars);
    MaxReal(4.0, (bars * 4) as real)
  }

  /** Rounding `x + 3.99` down to whole bars of 4 beats. */
  lemma {:induction false} WholeBars(x: real, bars: int)
    requires bars == ((x + 3.99) / 4.0).Floor
    ensures x - 0.01 < (bars * 4) as real <= x + 3.99
    ensures ((bars * 4) as real / 4.0).Floor == bars
  {
    var q := (x + 3.99) / 4.0;
    assert bars as real <= q < bars as real + 1.0;
    assert (bars * 4) as real == bars as real * 4.0;
    assert (bars * 4) as real / 4.0 == bars as real;
  }

  /** A note whose end lies just past a bar line is not covered: one note
      ending at beat 4.005 gives a one-bar pattern, so the next tile starts
      before the original note has ended. */
  lemma {:induction false} PatternLenUndershoots()
    ensures var n := JObj(map["start_beat" := JFloat(0.0), "duration_beats" := JFloat(4.005)]);
      Timed(n) && PatternLen([n]) == 4.0 && NoteEnd(n) > PatternLen([n])
  {
    var n := JObj(map["start_beat" := JFloat(0.0), "duration_beats" := JFloat(4.005)]);
    assert MaxEnd([n]) == 4.005 by { assert [n][..0] == []; }
  }

  /** `copy = dict(n); copy["start_beat"] = n["start_beat"] + offset` */
  function Shift(n: Json, offset: real): (r: Json)
    requires Timed(n)
    ensures Timed(r)
  {
    JObj(n.fields["start_beat" := JFloat(PyFloat(n.fields["start_beat"]) + offset)])
  }

  /** One pass of the inner `for n in original` loop: copies of the motif
      shifted by `offset`, cut short once `room` notes have been added. */
  function Round(orig: seq<Json>, offset: real, room: int): (r: seq<Json>)
    requires AllTimed(orig)
    ensures |r| == if room <= 0 then 0 else if room < |orig| then room else |orig|
    ensures forall j :: 0 <= j < |r| ==> r[j] == Shift(orig[j], offset)
  {
    var c := if room <= 0 then 0 else if room < |orig| then room else |orig|;
    seq(c, j requires 0 <= j < c => Shift(orig[j], offset))
  }

  /** The outer `while len(notes) < target_notes` loop, with `offset`
      advancing by `pl` after every pass. */
  function Tile(orig: seq<Json>, notes: seq<Json>, target: int, offset: real, pl: real): seq<Json>
    requires |orig| > 0 && AllTimed(orig)
    decreases target - |notes|
  {
    if |notes| >= target then notes
    else Tile(orig, notes + Round(orig, offset, target - |notes|), target, offset + pl, pl)
  }

  /** Note `i` of the tiled list: the original for the first tile, otherwise a
      copy of `orig[i mod k]` moved forward by `(i div k)` patterns. */
  function TiledAt(orig: seq<Json>, i: nat, pl: real): Json
    requires |orig| > 0 && AllTimed(orig)
  {
    var k := |orig|;
    if i < k then orig[i] else Shift(orig[i % k], Advance(i / k, pl))
  }

  /** The loop's `offset` after `passes` passes, each adding `pl`. */
  function Advance(passes: nat, pl: real): (r: real)
    ensures pl >= 0.0 ==> r >= 0.0
  {
    if passes == 0 then 0.0 else Advance(passes - 1, pl) + pl
  }

  ghost predicate TiledPrefix(orig: seq<Json>, notes: seq<Json>, pl: real)
    requires |orig| > 0 && AllTimed(orig)
  {
    forall i :: 0 <= i < |notes| ==> notes[i] == TiledAt(orig, i, pl)
  }

  lemma {:induction false} MulAtLeast(a: int, k: int)
    requires k > 0 && a >= 1
    ensures a * k >= k
  {
  }

  lemma {:induction false} DivModTile(t: nat, k: nat, j: nat)
    requires j < k
    ensures (t * k + j) / k == t && (t * k + j) % k == j
  {
    var q := (t * k + j) / k;
    assert q * k + (t * k + j) % k == t * k + j;
    if q > t {
      MulAtLeast(q - t, k);
    } else if q < t {
      MulAtLeast(t - q, k);
    }
  }

  /** Note `j` of tile `t` is note `j` of the motif moved forward `t` patterns. */
  lemma {:induction false} TiledLater(orig: seq<Json>, t: nat, j: nat, pl: real)
    requires |orig| > 0 && AllTimed(orig)
    requires t >= 1 && j < |orig|
    ensures TiledAt(orig, t * |orig| + j, pl) == Shift(orig[j], Advance(t, pl))
  {
    var k := |orig|;
    var i := t * k + j;
    MulAtLeast(t, k);
    DivModTile(t, k, j);
    TiledAtAbove(orig, i, t, j, pl);
  }

  lemma {:induction false} TiledAtAbove(orig: seq<Json>, i: nat, q: nat, m: nat, pl: real)
    requires |orig| > 0 && AllTimed(orig)
    requires i >= |orig| && i / |orig| == q && i % |orig| == m
    ensures m < |orig| && TiledAt(orig, i, pl) == Shift(orig[m], Advance(q, pl))
  {
  }

  /** One pass of the loop appends the next tile in closed form. */
  lemma {:induction false} TileStep(orig: seq<Json>, notes: seq<Json>, room: int, t: nat, pl: real)
    requires |orig| > 0 && AllTimed(orig)
    requires t >= 1 && |notes| == t * |orig|
    requires TiledPrefix(orig, notes, pl)
    ensures TiledPrefix(orig, notes + Round(orig, Advance(t, pl), room), pl)
  {
    var k := |orig|;
    var round := Round(orig, Advance(t, pl), room);
    var next := notes + round;
    forall i | 0 <= i < |next| ensures next[i] == TiledAt(orig, i, pl) {
      if i >= |notes| {
        var j := i - |notes|;
        TiledLater(orig, t, j, pl);
        assert next[i] == round[j];
      } else {
        assert next[i] == notes[i];
      }
    }
  }

  lemma {:induction false} NextTileLength(t: nat, k: nat)
    ensures t * k + k == (t + 1) * k
  {
  }

  /** The loop preserves the closed form, tile by tile. */
  lemma {:induction false} TileClosedForm(orig: seq<Json>, notes: seq<Json>, target: int, t: nat, off: real, pl: real)
    requires |orig| > 0 && AllTimed(orig)
    requires t >= 1 && |notes| == t * |orig| && off == Advance(t, pl)
    requires TiledPrefix(orig, notes, pl)
    ensures |Tile(orig, notes, target, off, pl)| == if target > |notes| then target else |notes|
    ensures TiledPrefix(orig, Tile(orig, notes, target, off, pl), pl)
    decreases target - |notes|
  {
    if |notes| < target {
      var next := notes + Round(orig, off, target - |notes|);
      TileStep(orig, notes, target - |notes|, t, pl);
      if |next| < target {
        NextTileLength(t, |orig|);
        TileClosedForm(orig, next, target, t + 1, off + pl, pl);
      }
    }
  }

  lemma {:induction false} TiledShape(orig: seq<Json>, r: seq<Json>, pl: real)
    requires |orig| > 0 && AllTimed(orig)
    requires |r| >= |orig| && TiledPrefix(orig, r, pl)
    ensures r[..|orig|] == orig
  {
    assert forall i :: 0 <= i < |orig| ==> r[i] == TiledAt(orig, i, pl) == orig[i];
  }

  /** Tiling a motif from its own end, with any pattern length. */
  lemma {:induction false} TileFromStart(orig: seq<Json>, target: int, pl: real)
    requires 0 < |orig| < target && AllTimed(orig)
    ensures var r := Tile(orig, orig, target, pl, pl);
      |r| == target && r[..|orig|] == orig && forall i :: 0 <= i < |r| ==> r[i] == TiledAt(orig, i, pl)
  {
    var r := Tile(orig, orig, target, pl, pl);
    assert TiledPrefix(orig, orig, pl);
    TileClosedForm(orig, orig, target, 1, pl, pl);
    TiledShape(orig, r, pl);
  }

  /** One note list after `_extend_pattern`: left alone when empty or already
      long enough, otherwise tiled forward to exactly `target` notes. */
  function ExtendList(notes: seq<Json>, target: int): (r: seq<Json>)
    requires 0 < |notes| < target ==> AllTimed(notes)
    ensures |notes| == 0 || |notes| >= target ==> r == notes
    ensures 0 < |notes| < target ==> |r| == target && r[..|notes|] == notes
    ensures 0 < |notes| < target ==> forall i :: 0 <= i < |r| ==> r[i] == TiledAt(notes, i, PatternLen(notes))
  {
    if |notes| == 0 || |notes| >= target then notes
    else
      var pl := PatternLen(notes);
      TileFromStart(notes, target, pl);
      Tile(notes, notes, target, pl, pl)
  }

  lemma {:induction false} ShiftValid(n: Json, offset: real)
    requires ValidNote(n) && offset >= 0.0
    ensures Timed(n) && ValidNote(Shift(n, offset))
  {
  }

  lemma {:induction false} TiledAtValid(items: seq<Json>, i: nat, pl: real)
    requires |items| > 0 && AllValidNotes(items) && pl >= 0.0
    ensures AllTimed(items) && ValidNote(TiledAt(items, i, pl))
  {
    assert AllTimed(items);
    if i >= |items| {
      ShiftValid(items[i % |items|], Advance(i / |items|, pl));
    }
  }

  /** Copies of clamped notes are clamped notes: only the start moves, and
      only forward. */
  lemma {:induction false} TiledValid(items: seq<Json>, target: int)
    requires AllValidNotes(items)
    ensures 0 < |items| < target ==> AllTimed(items)
    ensures AllValidNotes(ExtendList(items, target))
  {
    if 0 < |items| < target {
      assert AllTimed(items);
      var pl := PatternLen(items);
      var r := ExtendList(items, target);
      forall i | 0 <= i < |r| ensures ValidNote(r[i]) {
        TiledAtValid(items, i, pl);
      }
    }
  }

  /** The tiler can read every list it will extend. */
  predicate ListReady(m: map<string, Json>, key: string, target: int) {
    HasList(m, key) && 0 < |m[key].items| < target ==> AllTimed(m[key].items)
  }

  predicate ExtendReady(blocks: seq<Json>, target: int) {
    forall i :: 0 <= i < |blocks| ==>
      blocks[i].JObj? && ListReady(blocks[i].fields, MidiNotes, target) && ListReady(blocks[i].fields, DrumNotes, target)
  }

  function ExtendKey(m: map<string, Json>, key: string, target: int): (r: map<string, Json>)
    requires ListReady(m, key, target)
    ensures r.Keys == m.Keys
    ensures forall k :: k in m && k != key ==> r[k] == m[k]
    ensures HasList(m, key) ==> r[key] == JArr(ExtendList(m[key].items, target))
    ensures key in m && !m[key].JArr? ==> r[key] == m[key]
  {
    if HasList(m, key) then m[key := JArr(ExtendList(m[key].items, target))] else m
  }

  /** `_extend_pattern`: a no-op for a target <= 0; otherwise every note list of
      every block is extended as `ExtendList` says, and nothing else changes. */
  function ExtendPattern(blocks: seq<Json>, target: int): (r: seq<Json>)
    requires target > 0 ==> ExtendReady(blocks, target)
    ensures target <= 0 ==> r == blocks
    ensures |r| == |blocks|
    ensures target > 0 ==> forall i :: 0 <= i < |r| ==>
      r[i].JObj? && blocks[i].JObj? && r[i].fields.Keys == blocks[i].fields.Keys
    ensures target > 0 ==> forall i, k :: 0 <= i < |r| && blocks[i].JObj? && k in blocks[i].fields && !IsNoteKey(k) ==>
      r[i].JObj? && r[i].fields[k] == blocks[i].fields[k]
    ensures target > 0 ==> forall i, k :: 0 <= i < |r| && blocks[i].JObj? && IsNoteKey(k) && HasList(blocks[i].fields, k) ==>
      ListReady(blocks[i].fields, k, target) && r[i].JObj? && r[i].fields[k] == JArr(ExtendList(blocks[i].fields[k].items, target))
    ensures target > 0 ==> forall i, k :: 0 <= i < |r| && blocks[i].JObj? && k in blocks[i].fields && !blocks[i].fields[k].JArr? ==>
      r[i].JObj? && r[i].fields[k] == blocks[i].fields[k]
  {
    if target <= 0 then blocks
    else
      var r := seq(|blocks|, i requires 0 <= i < |blocks| => ExtendBlock(blocks[i], target));
      assert forall i :: 0 <= i < |r| ==> r[i] == ExtendBlock(blocks[i], target);
      r
  }

  /** One block of `_extend_pattern`: its two note lists tiled, the rest kept. */
  function ExtendBlock(b: Json, target: int): (r: Json)
    requires b.JObj? && ListReady(b.fields, MidiNotes, target) && ListReady(b.fields, DrumNotes, target)
    ensures r.JObj? && r.fields.Keys == b.fields.Keys
    ensures forall k :: k in b.fields && !IsNoteKey(k) ==> r.fields[k] == b.fields[k]
    ensures forall k :: IsNoteKey(k) && HasList(b.fields, k) ==>
      ListReady(b.fields, k, target) && r.fields[k] == JArr(ExtendList(b.fields[k].items, target))
    ensures forall k :: k in b.fields && !b.fields[k].JArr? ==> r.fields[k] == b.fields[k]
  {
    var m1 := ExtendKey(b.fields, MidiNotes, target);
    assert ListReady(m1, DrumNotes, target);
    JObj(ExtendKey(m1, DrumNotes, target))
  }

  /** Validated blocks are always ready to be tiled, whatever the target. */
  lemma {:induction false} ValidatedExtendReady(blocks: seq<Json>, target: int)
    requires forall i :: 0 <= i < |blocks| ==> ValidatedBlock(blocks[i])
    ensures ExtendReady(blocks, target)
  {
  }

  // ── _get_note_count ─────────────────────────────────────────────────

  function ListLen(m: map<string, Json>, key: string): nat {
    if HasList(m, key) then |m[key].items| else 0
  }

  predicate AllObjects(blocks: seq<Json>) {
    forall i :: 0 <= i < |blocks| ==> blocks[i].JObj?
  }

  /** The notes of one block: its "midi_notes" and "drum_notes" lists. */
  function BlockNotes(m: map<string, Json>): nat {
    ListLen(m, MidiNotes) + ListLen(m, DrumNotes)
  }

  /** `_get_note_count`: the lengths of every "midi_notes" and "drum_notes" list. */
  function NoteCount(blocks: seq<Json>): nat
    requires AllObjects(blocks)
  {
    if |blocks| == 0 then 0
    else NoteCount(blocks[..|blocks| - 1]) + BlockNotes(blocks[|blocks| - 1].fields)
  }

  /** Counting is monotone block by block. */
  lemma {:induction false} NoteCountMonotone(a: seq<Json>, b: seq<Json>)
    requires AllObjects(a) && AllObjects(b) && |a| == |b|
    requires forall i :: 0 <= i < |a| ==> BlockNotes(a[i].fields) <= BlockNotes(b[i].fields)
    ensures NoteCount(a) <= NoteCount(b)
    decreases |a|
  {
    if |a| > 0 {
      var n := |a| - 1;
      NoteCountMonotone(a[..n], b[..n]);
    }
  }

  /** Tiling never loses notes: the count after `_extend_pattern` is at least
      the count before. */
  lemma {:induction false} ExtendNeverShrinks(blocks: seq<Json>, target: int)
    requires AllObjects(blocks)
    requires target > 0 ==> ExtendReady(blocks, target)
    ensures AllObjects(ExtendPattern(blocks, target))
    ensures NoteCount(ExtendPattern(blocks, target)) >= NoteCount(blocks)
  {
    var r := ExtendPattern(blocks, target);
    if target > 0 {
      forall i | 0 <= i < |blocks| ensures BlockNotes(blocks[i].fields) <= BlockNotes(r[i].fields) {
        assert ListLen(blocks[i].fields, MidiNotes) <= ListLen(r[i].fields, MidiNotes);
        assert ListLen(blocks[i].fields, DrumNotes) <= ListLen(r[i].fields, DrumNotes);
      }
      NoteCountMonotone(blocks, r);
    }
  }

  /** Every block's notes are part of the total. */
  lemma {:induction false} NoteCountAtLeast(blocks: seq<Json>, i: nat)
    requires AllObjects(blocks) && i < |blocks|
    ensures BlockNotes(blocks[i].fields) <= NoteCount(blocks)
    decreases |blocks|
  {
    var n := |blocks| - 1;
    if i < n {
      assert blocks[..n][i] == blocks[i];
      NoteCountAtLeast(blocks[..n], i);
    }
  }

  /** A positive total comes from some block that has notes. */
  lemma {:induction false} NoteCountWitness(blocks: seq<Json>)
    requires AllObjects(blocks) && NoteCount(blocks) > 0
    ensures exists i :: 0 <= i < |blocks| && BlockNotes(blocks[i].fields) > 0
    decreases |blocks|
  {
    var n := |blocks| - 1;
    if BlockNotes(blocks[n].fields) == 0 {
      NoteCountWitness(blocks[..n]);
      var i :| 0 <= i < n && BlockNotes(blocks[..n][i].fields) > 0;
      assert blocks[..n][i] == blocks[i];
    }
  }

  /** A list that had notes holds at least the target after tiling. */
  lemma {:induction false} ExtendedListReaches(m: map<string, Json>, key: string, target: int, r: map<string, Json>)
    requires target > 0 && HasList(m, key) && ListReady(m, key, target)
    requires key in r && r[key] == JArr(ExtendList(m[key].items, target))
    requires ListLen(m, key) > 0
    ensures ListLen(r, key) >= target
  {
  }

  /** Tiling reaches its target: once any note is present, the count after
      `_extend_pattern` is at least the target. */
  lemma {:induction false} ExtendReachesTarget(blocks: seq<Json>, target: int)
    requires AllObjects(blocks) && target > 0 && ExtendReady(blocks, target)
    requires NoteCount(blocks) > 0
    ensures AllObjects(ExtendPattern(blocks, target))
    ensures NoteCount(ExtendPattern(blocks, target)) >= target
  {
    NoteCountWitness(blocks);
    var i :| 0 <= i < |blocks| && BlockNotes(blocks[i].fields) > 0;
    var r := ExtendPattern(blocks, target);
    ExtendNeverShrinks(blocks, target);
    var m := blocks[i].fields;
    var key := if ListLen(m, MidiNotes) > 0 then MidiNotes else DrumNotes;
    assert IsNoteKey(key) && HasList(m, key);
    ExtendedListReaches(m, key, target, r[i].fields);
    NoteCountAtLeast(r, i);
  }
}
