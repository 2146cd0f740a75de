/** Lists of module instances in the file and, grouped by processor or by tag, in a response. */
module ModuleGroups {
  import opened Bytes
  import opened SubgraphMap

  /** A tag's module list in the definition chunk. */
  function ModulesAt(file: seq<byte>, off: nat): (r: seq<ModuleInstance>)
    ensures |r| == Word(file, off)
  {
    seq(Word(file, off), i requires 0 <= i < Word(file, off) =>
      ModuleInstance(Word(file, off + 4 + 8 * i), Word(file, off + 8 + 8 * i)))
  }

  /** The modules of one processor, or of one tag. */
  datatype Group = Group(id: u32, modules: seq<ModuleInstance>)

  function ModuleWords(m: ModuleInstance): (r: seq<u32>)
    ensures |r| == 2
  {
    [m.mid, m.iid]
  }

  function GroupWords(g: Group): (r: seq<u32>)
    ensures |r| == |Flat(ModuleWords, g.modules)| + 2
  {
    [g.id, Low32(|g.modules|)] + Flat(ModuleWords, g.modules)
  }

  function Serialized(gs: seq<Group>): seq<u32> {
    Flat(GroupWords, gs)
  }

  function Ids(gs: seq<Group>): (r: seq<u32>)
    ensures |r| == |gs| && forall i | 0 <= i < |r| :: r[i] == gs[i].id
  {
    seq(|gs|, i requires 0 <= i < |gs| => gs[i].id)
  }

  function GroupSize(g: Group): nat {
    |g.modules|
  }

  lemma {:induction false} ModuleWordsSize(ms: seq<ModuleInstance>)
    ensures |Flat(ModuleWords, ms)| == 2 * |ms|
  {
    if ms != [] {
      ModuleWordsSize(ms[..|ms| - 1]);
    }
  }

  /** Two words for each group and for each module. */
  lemma {:induction false} SerializedSize(gs: seq<Group>)
    ensures |Serialized(gs)| == 2 * |gs| + 2 * Sum(GroupSize, gs)
  {
    if gs != [] {
      SerializedSize(gs[..|gs| - 1]);
      ModuleWordsSize(gs[|gs| - 1].modules);
    }
  }

  // ---------------------------------------------------------------- reading the file and the response

  lemma ModulePair(ms: seq<ModuleInstance>, k: nat)
    requires k < |ms|
    ensures var ws := Flat(ModuleWords, ms); |ws| == 2 * |ms| && ws[2 * k] == ms[k].mid && ws[2 * k + 1] == ms[k].iid
  {
    hide Flat;
    FlatUniform(ModuleWords, ms, 2, k);
    var pair := Flat(ModuleWords, ms)[k * 2..k * 2 + 2];
    assert pair[0] == ms[k].mid && pair[1] == ms[k].iid;
  }

  /** A definition list in the file: a count, then <module, instance> pairs. */
  lemma ModulesRead(file: seq<byte>, off: nat, ms: seq<ModuleInstance>, ws: seq<u32>)
    requires |ms| < WORD_LIMIT && ws == [Low32(|ms|)] + Flat(ModuleWords, ms) && At(file, off, Words(ws))
    ensures ModulesAt(file, off) == ms
  {
    hide At, Words, Word, Flat;
    WordRead(file, off, ws, 0);
    forall k | 0 <= k < |ms|
      ensures ModulesAt(file, off)[k] == ms[k]
    {
      ModulePair(ms, k);
      ModuleRead(file, off, ws, 2 * k + 1);
    }
  }

  lemma ModuleRead(file: seq<byte>, off: nat, ws: seq<u32>, i: nat)
    requires At(file, off, Words(ws)) && i + 1 < |ws|
    ensures Word(file, off + 4 * i) == ws[i] && Word(file, off + 4 * i + 4) == ws[i + 1]
  {
    hide At, Words, Word;
    WordRead(file, off, ws, i);
    WordRead(file, off, ws, i + 1);
  }

  function ReadModules(ws: seq<u32>): (r: seq<ModuleInstance>)
    ensures |r| == |ws| / 2
  {
    seq(|ws| / 2, i requires 0 <= i < |ws| / 2 => ModuleInstance(ws[2 * i], ws[2 * i + 1]))
  }

  /** A client reading groups: an id, a count, as many modules; then the next group. */
  function ReadGroups(ws: seq<u32>): seq<Group> {
    if |ws| < 2 then []
    else
      var n: nat := ws[1];
      var end := 2 + 2 * n;
      if end > |ws| then [] else [Group(ws[0], ReadModules(ws[2..end]))] + ReadGroups(ws[end..])
  }

  lemma {:induction false} ModulesReadBack(ms: seq<ModuleInstance>)
    ensures |Flat(ModuleWords, ms)| == 2 * |ms| && ReadModules(Flat(ModuleWords, ms)) == ms
  {
    if ms != [] {
      var n := |ms| - 1;
      ModulesReadBack(ms[..n]);
      var ws, before := Flat(ModuleWords, ms), Flat(ModuleWords, ms[..n]);
      assert ws == before + [ms[n].mid, ms[n].iid];
      forall i | 0 <= i < n
        ensures ReadModules(ws)[i] == ms[i]
      {
        assert ReadModules(before)[i] == ms[..n][i];
      }
    }
  }

  /** It reads back the groups that were written. */
  lemma {:induction false} GroupsReadBack(gs: seq<Group>)
    requires forall i | 0 <= i < |gs| :: |gs[i].modules| < WORD_LIMIT
    ensures ReadGroups(Serialized(gs)) == gs
  {
    hide ReadModules, ModuleWords, Flat;
    if gs != [] {
      var g, rest := gs[0], gs[1..];
      GroupsReadBack(rest);
      FirstGroup(gs);
      ModulesReadBack(g.modules);
      var ws, n := Serialized(gs), |g.modules|;
      assert ws == [g.id, Low32(n)] + Flat(ModuleWords, g.modules) + Serialized(rest);
      assert ws[2..2 + 2 * n] == Flat(ModuleWords, g.modules) && ws[2 + 2 * n..] == Serialized(rest);
      assert gs == [g] + rest;
    } else {
      NoWords();
    }
  }

  lemma NoWords()
    ensures Serialized([]) == []
  {
  }

  lemma FirstGroup(gs: seq<Group>)
    requires gs != []
    ensures Serialized(gs) == GroupWords(gs[0]) + Serialized(gs[1..])
  {
    hide GroupWords;
    assert gs == [gs[0]] + gs[1..] && [] + [gs[0]] == [gs[0]];
    FlatConcat(GroupWords, [gs[0]], gs[1..]);
    FlatSnoc(GroupWords, [], gs[0]);
  }
}
