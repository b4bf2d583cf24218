/** The server's conversational state: the pattern clipboard (`_save_pattern`,
    the pattern listing and lookups, and `clear_patterns`) and the capped conversation
    history. The wall-clock timestamp of a saved pattern is a parameter. */
module Session {
  import opened Wrappers
  import opened Json
  import opened Seqs
  import opened Notes

  const MaxPatterns: nat := 20
  const MaxHistory: nat := 40
  const MaxPromptChars: nat := 200

  datatype Pattern = Pattern(
    id: nat,
    timestamp: string,
    prompt: string,
    genre: Option<string>,
    model: string,
    noteCount: nat,
    blocks: seq<Json>)

  /** `pattern_bank` with `_pattern_id_counter`. */
  datatype Bank = Bank(entries: seq<Pattern>, counter: nat)

  const EmptyBank := Bank([], 0)

  predicate IdsIncreasing(es: seq<Pattern>) {
    forall i, j :: 0 <= i < j < |es| ==> es[i].id < es[j].id
  }

  predicate EntriesOk(es: seq<Pattern>, counter: nat) {
    forall i :: 0 <= i < |es| ==>
      0 < es[i].id <= counter && es[i].noteCount > 0 && |es[i].prompt| <= MaxPromptChars
  }

  /** What the bank promises its readers: at most 20 entries, ids strictly
      increasing in insertion order and never above the counter, every entry
      non-empty and its prompt at most 200 characters. */
  predicate BankOk(b: Bank) {
    |b.entries| <= MaxPatterns && IdsIncreasing(b.entries) && EntriesOk(b.entries, b.counter)
  }

  lemma {:induction false} SuffixOk(es: seq<Pattern>, d: nat, counter: nat)
    requires d <= |es| && IdsIncreasing(es) && EntriesOk(es, counter)
    ensures IdsIncreasing(es[d..]) && EntriesOk(es[d..], counter)
  {
    assert forall i :: 0 <= i < |es| - d ==> es[d..][i] == es[d + i];
  }

  /** `prompt[:200]` */
  function Truncate(s: string, n: nat): (r: string)
    ensures |r| == Min(|s|, n) && r == s[..|r|]
  {
    if |s| <= n then s else s[..n]
  }

  datatype Saved = Saved(bank: Bank, id: Option<nat>)

  /** `_save_pattern`: nothing happens for a result without notes; otherwise
      the counter advances, the entry is appended with the new id, and the
      bank is trimmed to its last 20 entries. */
  function SavePattern(b: Bank, prompt: string, genre: Option<string>, model: string,
                       blocks: seq<Json>, timestamp: string): (r: Saved)
    requires AllObjects(blocks)
    ensures NoteCount(blocks) == 0 <==> r.id.None?
    ensures r.id.None? ==> r.bank == b
    ensures r.id.Some? ==> r.id.value == b.counter + 1 == r.bank.counter
    ensures r.id.Some? ==>
              |r.bank.entries| > 0 && r.bank.entries[..|r.bank.entries| - 1] == KeepLast(b.entries, MaxPatterns - 1)
    ensures r.id.Some? ==> |r.bank.entries| > 0 && var e := r.bank.entries[|r.bank.entries| - 1];
      e.id == r.id.value && e.blocks == blocks && e.noteCount == NoteCount(blocks) &&
      e.prompt == Truncate(prompt, MaxPromptChars) && e.genre == genre && e.model == model && e.timestamp == timestamp
  {
    var count := NoteCount(blocks);
    if count == 0 then Saved(b, None)
    else
      var id := b.counter + 1;
      var entry := Pattern(id, timestamp, Truncate(prompt, MaxPromptChars), genre, model, count, blocks);
      Saved(Bank(KeepLast(b.entries + [entry], MaxPatterns), id), Some(id))
  }

  /** Saving keeps every promise of the bank. */
  lemma {:induction false} SavePreserves(b: Bank, prompt: string, genre: Option<string>, model: string,
                      blocks: seq<Json>, timestamp: string)
    requires AllObjects(blocks) && BankOk(b)
    ensures BankOk(SavePattern(b, prompt, genre, model, blocks, timestamp).bank)
  {
    var count := NoteCount(blocks);
    if count > 0 {
      var id := b.counter + 1;
      var entry := Pattern(id, timestamp, Truncate(prompt, MaxPromptChars), genre, model, count, blocks);
      var all := b.entries + [entry];
      AppendOk(b.entries, entry, b.counter);
      TrimOk(all, id);
      assert SavePattern(b, prompt, genre, model, blocks, timestamp).bank == Bank(KeepLast(all, MaxPatterns), id);
    }
  }

  /** Keeping the last 20 entries of a well-formed list gives a well-formed bank. */
  lemma {:induction false} TrimOk(all: seq<Pattern>, counter: nat)
    requires IdsIncreasing(all) && EntriesOk(all, counter)
    ensures BankOk(Bank(KeepLast(all, MaxPatterns), counter))
  {
    SuffixOk(all, |all| - Min(|all|, MaxPatterns), counter);
  }

  lemma {:induction false} AppendOk(es: seq<Pattern>, e: Pattern, counter: nat)
    requires IdsIncreasing(es) && EntriesOk(es, counter)
    requires e.id == counter + 1 && e.noteCount > 0 && |e.prompt| <= MaxPromptChars
    ensures IdsIncreasing(es + [e]) && EntriesOk(es + [e], e.id)
  {
  }

  /** A later save always gets a larger id than any pattern still held. */
  lemma {:induction false} SaveIdIsFresh(b: Bank, prompt: string, genre: Option<string>, model: string,
                      blocks: seq<Json>, timestamp: string)
    requires AllObjects(blocks) && BankOk(b)
    ensures var r := SavePattern(b, prompt, genre, model, blocks, timestamp);
      r.id.Some? ==> forall i :: 0 <= i < |b.entries| ==> b.entries[i].id < r.id.value
  {
  }

  /** `clear_patterns`: empties the bank and restarts the ids at 1. */
  function ClearPatterns(b: Bank): (r: Bank)
    ensures BankOk(r) && |r.entries| == 0 && r.counter == 0
  {
    EmptyBank
  }

  /** `get_pattern`: the first entry with the id, if any. */
  function GetPattern(entries: seq<Pattern>, id: nat): (r: Option<Pattern>)
    ensures r.Some? ==> r.value in entries && r.value.id == id
    ensures r.None? ==> forall i :: 0 <= i < |entries| ==> entries[i].id != id
  {
    if |entries| == 0 then None
    else if entries[0].id == id then Some(entries[0])
    else GetPattern(entries[1..], id)
  }

  /** `get_latest_pattern`: the newest entry, none for an empty bank. */
  function Latest(b: Bank): (r: Option<Pattern>)
    ensures r.None? <==> |b.entries| == 0
    ensures r.Some? ==> r.value == b.entries[|b.entries| - 1]
  {
    if |b.entries| == 0 then None else Some(b.entries[|b.entries| - 1])
  }

  /** A saved pattern can be read back, by its id and as the latest one. */
  lemma {:induction false} SaveThenGet(b: Bank, prompt: string, genre: Option<string>, model: string,
                                       blocks: seq<Json>, timestamp: string)
    requires AllObjects(blocks) && BankOk(b)
    ensures var r := SavePattern(b, prompt, genre, model, blocks, timestamp);
      r.id.Some? ==> Latest(r.bank).Some? && GetPattern(r.bank.entries, r.id.value) == Latest(r.bank)
  {
    var r := SavePattern(b, prompt, genre, model, blocks, timestamp);
    if r.id.Some? {
      SavePreserves(b, prompt, genre, model, blocks, timestamp);
      UniqueFound(r.bank.entries, |r.bank.entries| - 1);
    }
  }

  /** One row of `list_patterns`: the entry without its model and blocks. */
  datatype Summary = Summary(id: nat, timestamp: string, prompt: string, genre: Option<string>, noteCount: nat)

  function Summarize(p: Pattern): Summary {
    Summary(p.id, p.timestamp, p.prompt, p.genre, p.noteCount)
  }

  /** The summaries of the entries, newest first. */
  function Summaries(es: seq<Pattern>): (r: seq<Summary>)
    ensures |r| == |es|
    ensures forall i :: 0 <= i < |r| ==> r[i] == Summarize(es[|es| - 1 - i])
  {
    if |es| == 0 then [] else Summaries(es[1..]) + [Summarize(es[0])]
  }

  datatype Listing = Listing(patterns: seq<Summary>, count: nat)

  /** `list_patterns`: a summary of every saved pattern, most recent first,
      with the number of patterns held. */
  function ListPatterns(b: Bank): (r: Listing)
    ensures r.count == |b.entries| == |r.patterns|
    ensures forall i :: 0 <= i < |r.patterns| ==> r.patterns[i] == Summarize(b.entries[|b.entries| - 1 - i])
  {
    Listing(Summaries(b.entries), |b.entries|)
  }

  /** In a well-formed bank the listing's ids strictly decrease, and its
      first row is the latest pattern. */
  lemma {:induction false} ListNewestFirst(b: Bank)
    requires BankOk(b)
    ensures var ps := ListPatterns(b).patterns;
      forall i, j :: 0 <= i < j < |ps| ==> ps[i].id > ps[j].id
    ensures Latest(b).Some? ==> ListPatterns(b).patterns[0] == Summarize(Latest(b).value)
  {
    var ps := ListPatterns(b).patterns;
    var n := |b.entries|;
    forall i, j | 0 <= i < j < |ps| ensures ps[i].id > ps[j].id {
      assert ps[i].id == b.entries[n - 1 - i].id;
      assert ps[j].id == b.entries[n - 1 - j].id;
    }
  }

  /** Every listed id can be looked up, and gives the pattern summarised. */
  lemma {:induction false} ListedFound(b: Bank, i: nat)
    requires BankOk(b) && i < |b.entries|
    ensures var row := ListPatterns(b).patterns[i];
      GetPattern(b.entries, row.id).Some? && Summarize(GetPattern(b.entries, row.id).value) == row
  {
    var k := |b.entries| - 1 - i;
    UniqueFound(b.entries, k);
  }

  /** With increasing ids, looking up an entry's id finds that entry. */
  lemma {:induction false} UniqueFound(entries: seq<Pattern>, k: nat)
    requires k < |entries| && IdsIncreasing(entries)
    ensures GetPattern(entries, entries[k].id) == Some(entries[k])
    decreases k
  {
    if k > 0 {
      assert entries[0].id < entries[k].id;
      assert entries[1..][k - 1] == entries[k];
      UniqueFound(entries[1..], k - 1);
    }
  }

  datatype Message = Message(role: string, content: string)

  /** The user turn of `ask`: append, then keep only the last 40 entries. */
  function AddUserTurn(h: seq<Message>, content: string): (r: seq<Message>)
    ensures |r| == Min(|h| + 1, MaxHistory)
    ensures |r| > 0 && r[|r| - 1] == Message("user", content)
    ensures r[..|r| - 1] == h[|h| + 1 - |r|..]
  {
    KeepLast(h + [Message("user", content)], MaxHistory)
  }

  /** The assistant turn of `ask`: appended with no cap of its own. */
  function AddAssistantTurn(h: seq<Message>, content: string): (r: seq<Message>)
    ensures |r| == |h| + 1 && r[..|h|] == h && r[|h|] == Message("assistant", content)
  {
    h + [Message("assistant", content)]
  }

  /** Only the user append trims, so the history can hold 41 entries right
      after an answer; a whole exchange never takes it past that. */
  lemma {:induction false} ExchangeBounded(h: seq<Message>, question: string, answer: string)
    requires |h| <= MaxHistory + 1
    ensures |AddUserTurn(h, question)| <= MaxHistory
    ensures |AddAssistantTurn(AddUserTurn(h, question), answer)| <= MaxHistory + 1
  {
  }

  /** The bound is reached: a full history gets its 41st entry from the answer. */
  lemma {:induction false} HistoryReaches41(h: seq<Message>, question: string, answer: string)
    requires |h| == MaxHistory
    ensures |AddAssistantTurn(AddUserTurn(h, question), answer)| == MaxHistory + 1
  {
  }
}
