/** The command and tool handlers of main.py that decide something before
    touching the store: identity tags on stored text, `/memory add`,
    `/memory edit`, the allowed-groups list, the `save_memory` tool and
    `/memory update`. Reply texts are reduced to an outcome value. */
module Commands {
  import opened Wrappers
  import opened Text
  import opened StableSort
  import opened MemoryStore
  import opened Session

  // ---------------------------------------------------------------------
  // Identity tags

  /** The tag a command writes: `[<name>(<id>) 提到]: `. */
  function SenderTag(name: string, id: string): string
  {
    "[" + name + "(" + id + ") 提到]: "
  }

  /** The tag the `save_memory` tool writes, without the sender id:
      `[<name> 提到]: `. */
  function ToolTag(name: string): string
  {
    "[" + name + " 提到]: "
  }

  /** Neither a name nor an id contains `]`. */
  predicate NoBracket(s: string)
  {
    forall i :: 0 <= i < |s| ==> s[i] != ']'
  }

  /** The content `edit_memory` stores: a text that starts with `[` and
      holds ` 提到]:` keeps everything before its first `]:`, then `]: ` and
      the new text; any other text gets a fresh sender tag. */
  function EditedContent(previous: string, content: string, name: string, id: string): (r: string)
    ensures |r| >= |content| + 3
    ensures r[|r| - |content| - 3..] == "]: " + content
  {
    var tag :=
      if StartsWith(previous, "[") && Contains(previous, " 提到]:") then BeforeFirst(previous, "]:") + "]: "
      else SenderTag(name, id);
    assert tag[|tag| - 3..] == "]: ";
    assert (tag + content)[|tag| - 3..] == tag[|tag| - 3..] + content;
    tag + content
  }

  /** No `]` in a concatenation of bracket-free texts. */
  lemma NoBracketConcat(x: string, y: string)
    requires NoBracket(x) && NoBracket(y)
    ensures NoBracket(x + y)
  {
    forall i | 0 <= i < |x + y|
      ensures (x + y)[i] != ']'
    {
      if i >= |x| {
        assert (x + y)[i] == y[i - |x|];
      }
    }
  }

  /** A text of the form `a]: text`, with `a` starting with `[`, ending
      with ` 提到` and free of `]`, keeps `a]: ` on every edit. */
  lemma EditKeepsTag(a: string, text: string, content: string, editor: string, editorId: string)
    requires StartsWith(a, "[") && NoBracket(a)
    requires |a| >= 3 && a[|a| - 3..] == " 提到"
    ensures EditedContent(a + "]: " + text, content, editor, editorId) == a + "]: " + content
  {
    var previous := a + "]: " + text;
    assert previous[..1] == a[..1];
    var at := |a| - 3;
    assert previous[at..at + 5] == " 提到]:";
    ContainsIff(previous, " 提到]:");
    assert OccursAt(previous, " 提到]:", at);
    assert previous == a + "]:" + " " + text;
    BeforeFirstOf(a, "]:", " " + text);
    assert a + "]:" + (" " + text) == previous;
  }

  /** Editing a memory written by `/memory add` keeps the original
      author's tag, whoever edits it, when the name and id hold no `]`. */
  lemma EditKeepsSenderTag(name: string, id: string, text: string, content: string, editor: string, editorId: string)
    requires NoBracket(name) && NoBracket(id)
    ensures EditedContent(SenderTag(name, id) + text, content, editor, editorId) == SenderTag(name, id) + content
  {
    var a := "[" + name + "(" + id + ") 提到";
    NoBracketConcat("[", name);
    NoBracketConcat("[" + name, "(");
    NoBracketConcat("[" + name + "(", id);
    NoBracketConcat("[" + name + "(" + id, ") 提到");
    assert SenderTag(name, id) == a + "]: ";
    EditKeepsTag(a, text, content, editor, editorId);
  }

  /** The same holds for a memory the `save_memory` tool wrote. */
  lemma EditKeepsToolTag(name: string, text: string, content: string, editor: string, editorId: string)
    requires NoBracket(name)
    ensures EditedContent(ToolTag(name) + text, content, editor, editorId) == ToolTag(name) + content
  {
    var a := "[" + name + " 提到";
    NoBracketConcat("[", name);
    NoBracketConcat("[" + name, " 提到");
    assert ToolTag(name) == a + "]: ";
    EditKeepsTag(a, text, content, editor, editorId);
  }

  /** A memory without a tag is tagged with the editor on its first edit. */
  lemma EditTagsUntagged(previous: string, content: string, editor: string, editorId: string)
    requires !StartsWith(previous, "[")
    ensures EditedContent(previous, content, editor, editorId) == SenderTag(editor, editorId) + content
  {
  }

  // ---------------------------------------------------------------------
  // Commands on the store

  /** What `/memory add` answers. */
  datatype AddOutcome = AddEmptyContent | AddManagementOff | Added

  /** `/memory add <content>`: the stripped content, tagged with the
      sender, stored with importance 3. */
  method AddCommand(store: MemoryManager, e: Event, globalMemory: bool, content: string,
                    timestamp: string, idStamp: string) returns (outcome: AddOutcome)
    requires var b := store.Bucket(SessionId(e, globalMemory));
      store.enabled && |b| >= store.maxMemories ==> b != []
    modifies store`memories
    ensures var sid := SessionId(e, globalMemory);
      if Strip(content) == [] then outcome == AddEmptyContent && store.memories == old(store.memories)
      else if !store.enabled then outcome == AddManagementOff && store.memories == old(store.memories)
      else outcome == Added && store.memories == old(store.memories)[sid :=
        MakeRoom(old(store.Bucket(sid)), store.maxMemories)
          + [NewRecord(sid, SenderTag(e.senderName, e.senderId) + Strip(content), 3, timestamp, idStamp)]]
  {
    var sid := SessionId(e, globalMemory);
    var text := Strip(content);
    if text == [] {
      return AddEmptyContent;
    }
    var tagged := SenderTag(e.senderName, e.senderId) + text;
    var ok := store.AddMemory(sid, tagged, 3, timestamp, idStamp);
    outcome := if ok then Added else AddManagementOff;
  }

  /** What `/memory edit` answers. */
  datatype EditOutcome = EditInvalidIndex | EditEmptyContent | Edited

  /** `/memory edit <index> <content>` with a 1-based index into the
      bucket as `get_memories` shows it (so nothing while management is
      off). The record is changed in place; only its content changes. */
  method EditMemory(store: MemoryManager, e: Event, globalMemory: bool, index: int, content: string)
    returns (outcome: EditOutcome)
    modifies store`memories
    ensures var sid := SessionId(e, globalMemory);
      var b := old(store.GetMemories(sid));
      if !(1 <= index <= |b|) then outcome == EditInvalidIndex && store.memories == old(store.memories)
      else if Strip(content) == [] then outcome == EditEmptyContent && store.memories == old(store.memories)
      else outcome == Edited && store.memories == old(store.memories)[sid :=
        b[index - 1 := b[index - 1].(content :=
          EditedContent(b[index - 1].content, Strip(content), e.senderName, e.senderId))]]
  {
    var sid := SessionId(e, globalMemory);
    var i := index - 1;
    var memories := store.GetMemories(sid);
    if i < 0 || i >= |memories| {
      return EditInvalidIndex;
    }
    var text := Strip(content);
    if text == [] {
      return EditEmptyContent;
    }
    var m := memories[i];
    var updated := EditedContent(m.content, text, e.senderName, e.senderId);
    store.memories := store.memories[sid := memories[i := m.(content := updated)]];
    outcome := Edited;
  }

  /** What `/memory update` answers. */
  datatype UpdateOutcome = ImportanceOutOfRange | UpdateInvalidIndex | Updated

  /** `/memory update <index> <importance>`: importances outside 1..5 are
      refused before the store is asked; the store then checks the
      1-based index against the stored bucket (whether or not management
      is on). An accepted importance is stored as given. */
  method UpdateImportanceCommand(store: MemoryManager, e: Event, globalMemory: bool, index: int, importance: int)
    returns (outcome: UpdateOutcome)
    modifies store`memories
    ensures var sid := SessionId(e, globalMemory);
      if importance < 1 || importance > 5 then
        outcome == ImportanceOutOfRange && store.memories == old(store.memories)
      else if sid !in old(store.memories) || !(1 <= index <= |old(store.memories)[sid]|) then
        outcome == UpdateInvalidIndex && store.memories == old(store.memories)
      else
        outcome == Updated && store.memories == old(store.memories)[sid :=
          old(store.memories)[sid][index - 1 := old(store.memories)[sid][index - 1].(importance := importance)]]
  {
    var sid := SessionId(e, globalMemory);
    var i := index - 1;
    if importance < 1 || importance > 5 {
      return ImportanceOutOfRange;
    }
    var ok := store.UpdateMemoryImportance(sid, i, importance);
    outcome := if ok then Updated else UpdateInvalidIndex;
  }

  /** `/memory list` numbers the importance-sorted view, while `edit`,
      `remove` and `update` count positions in the stored order. With a
      record of importance 3 stored before one of importance 5, the list
      shows the second record as number 1, yet number 1 in a command
      addresses the first. */
  lemma ListedNumberIsNotCommandIndex(store: MemoryManager, sid: string, a: Memory, b: Memory)
    requires store.GetMemories(sid) == [a, b]
    requires a.importance == 3 && b.importance == 5
    ensures store.GetMemoriesSorted(sid)[0] == b
    ensures store.GetMemories(sid)[0] == a && a != b
  {
    assert FirstMinIndex([a, b], NegImportance) == 1;
  }

  /** What the `save_memory` tool answers. */
  datatype SaveOutcome = AutoSaveOff | BelowThreshold | SaveManagementOff | Saved

  /** The decision `save_memory` takes before touching the store. */
  function SaveGate(autoSave: bool, threshold: int, importance: int): (refusal: Option<SaveOutcome>)
    ensures refusal.None? <==> autoSave && importance >= threshold
    ensures refusal.Some? ==> refusal.value == AutoSaveOff || refusal.value == BelowThreshold
  {
    if !autoSave then Some(AutoSaveOff)
    else if importance < threshold then Some(BelowThreshold)
    else None
  }

  /** With a threshold in 1..5, every record the tool stores has an
      importance of at least the threshold. */
  lemma SavedMeetsThreshold(autoSave: bool, threshold: int, importance: int)
    requires 1 <= threshold <= 5
    requires SaveGate(autoSave, threshold, importance).None?
    ensures Clamp(importance) >= threshold
  {
  }

  /** The `save_memory` tool: refused while auto-save is off or below the
      threshold (compared before clamping); otherwise the content, tagged
      with the sender's name, goes through `add_memory`. */
  method SaveMemoryTool(store: MemoryManager, autoSave: bool, threshold: int, e: Event, globalMemory: bool,
                        content: string, importance: int, timestamp: string, idStamp: string)
    returns (outcome: SaveOutcome)
    requires var b := store.Bucket(SessionId(e, globalMemory));
      store.enabled && |b| >= store.maxMemories ==> b != []
    modifies store`memories
    ensures var sid := SessionId(e, globalMemory);
      var gate := SaveGate(autoSave, threshold, importance);
      if gate.Some? then outcome == gate.value && store.memories == old(store.memories)
      else if !store.enabled then outcome == SaveManagementOff && store.memories == old(store.memories)
      else outcome == Saved && store.memories == old(store.memories)[sid :=
        MakeRoom(old(store.Bucket(sid)), store.maxMemories)
          + [NewRecord(sid, ToolTag(e.senderName) + content, importance, timestamp, idStamp)]]
  {
    if !autoSave {
      return AutoSaveOff;
    }
    if importance < threshold {
      return BelowThreshold;
    }
    var sid := SessionId(e, globalMemory);
    var tagged := ToolTag(e.senderName) + content;
    var ok := store.AddMemory(sid, tagged, importance, timestamp, idStamp);
    outcome := if ok then Saved else SaveManagementOff;
  }

  // ---------------------------------------------------------------------
  // Allowed groups

  /** The stripped, non-empty pieces, `[g.strip() for g in parts if g.strip()]`. */
  function StrippedPieces(parts: seq<string>): (gs: seq<string>)
    ensures |gs| <= |parts|
  {
    if parts == [] then []
    else
      var g := Strip(parts[0]);
      (if g != [] then [g] else []) + StrippedPieces(parts[1..])
  }

  /** A text is among the pieces exactly when it is the non-empty strip of
      one of them. */
  lemma {:induction false} StrippedPiecesMembers(parts: seq<string>, g: string)
    ensures g in StrippedPieces(parts) <==> g != [] && exists p :: p in parts && Strip(p) == g
    decreases |parts|
  {
    if parts != [] {
      StrippedPiecesMembers(parts[1..], g);
      assert forall p :: p in parts <==> p == parts[0] || p in parts[1..];
    }
  }

  /** A piece of comma-free parts is a clean id: non-empty, unpadded and
      without a comma. */
  lemma StrippedPieceShape(parts: seq<string>, g: string)
    requires forall i, j :: 0 <= i < |parts| && 0 <= j < |parts[i]| ==> parts[i][j] != ','
    requires g in StrippedPieces(parts)
    ensures g != [] && !IsSpace(g[0]) && !IsSpace(g[|g| - 1]) && ',' !in g
  {
    StrippedPiecesMembers(parts, g);
    var p :| p in parts && Strip(p) == g;
    var i :| 0 <= i < |parts| && parts[i] == p;
  }

  /** The allowed-groups setting read as a list of group ids. */
  function AllowedGroups(setting: string): (groups: seq<string>)
    ensures forall g :: g in groups ==> g != [] && !IsSpace(g[0]) && !IsSpace(g[|g| - 1]) && ',' !in g
    ensures forall g :: g in groups <==> g != [] && exists p :: p in Split(setting, ',') && Strip(p) == g
  {
    var parts := Split(setting, ',');
    assert forall g :: g in StrippedPieces(parts) <==> g != [] && exists p :: p in parts && Strip(p) == g by {
      forall g
        ensures g in StrippedPieces(parts) <==> g != [] && exists p :: p in parts && Strip(p) == g
      {
        StrippedPiecesMembers(parts, g);
      }
    }
    assert forall g :: g in StrippedPieces(parts) ==> g != [] && !IsSpace(g[0]) && !IsSpace(g[|g| - 1]) && ',' !in g by {
      forall g | g in StrippedPieces(parts)
        ensures g != [] && !IsSpace(g[0]) && !IsSpace(g[|g| - 1]) && ',' !in g
      {
        StrippedPieceShape(parts, g);
      }
    }
    StrippedPieces(parts)
  }

  /** A group chat is refused when the setting is not blank and does not
      list the group; private chats and a blank setting are never
      refused. */
  predicate Refused(setting: string, groupId: string)
    ensures Refused(setting, groupId) <==>
      groupId != [] && Strip(setting) != [] && forall p :: p in Split(setting, ',') ==> Strip(p) != groupId
  {
    groupId != [] && Strip(setting) != [] && groupId !in AllowedGroups(setting)
  }

  lemma {:induction false} StrippedPiecesOfClean(gs: seq<string>)
    requires forall g :: g in gs ==> g != [] && !IsSpace(g[0]) && !IsSpace(g[|g| - 1])
    ensures StrippedPieces(gs) == gs
    decreases |gs|
  {
    if gs != [] {
      assert gs[0] in gs;
      StripUnpadded(gs[0]);
      StrippedPiecesOfClean(gs[1..]);
      assert [gs[0]] + gs[1..] == gs;
    }
  }

  /** Writing a list of group ids joined by commas and reading the setting
      back gives the same list. */
  lemma AllowedGroupsRoundTrip(gs: seq<string>)
    requires forall g :: g in gs ==> g != [] && !IsSpace(g[0]) && !IsSpace(g[|g| - 1]) && ',' !in g
    ensures AllowedGroups(Join(gs, ',')) == gs
  {
    if gs == [] {
      assert Split([], ',') == [[]];
      assert Strip([]) == [];
    } else {
      forall i, j | 0 <= i < |gs| && 0 <= j < |gs[i]|
        ensures gs[i][j] != ','
      {
        assert gs[i] in gs;
      }
      SplitJoin(gs, ',');
      StrippedPiecesOfClean(gs);
    }
  }

  /** The pieces each keep their own id, stripped of surrounding blanks. */
  lemma {:induction false} StrippedPiecesOfPadded(ps: seq<string>, gs: seq<string>)
    requires |gs| == |ps|
    requires forall i :: 0 <= i < |ps| ==> Strip(ps[i]) == gs[i] && gs[i] != []
    ensures StrippedPieces(ps) == gs
    decreases |ps|
  {
    if ps != [] {
      StrippedPiecesOfPadded(ps[1..], gs[1..]);
      assert gs == [gs[0]] + gs[1..];
    }
  }

  /** A setting written with blanks around the ids, such as "123, 456",
      lists every id stripped: group "456" is admitted. */
  lemma AllowedGroupsOfPadded(ps: seq<string>)
    requires ps != []
    requires forall i, j :: 0 <= i < |ps| && 0 <= j < |ps[i]| ==> ps[i][j] != ','
    requires forall i :: 0 <= i < |ps| ==> Strip(ps[i]) != []
    ensures AllowedGroups(Join(ps, ',')) == seq(|ps|, i requires 0 <= i < |ps| => Strip(ps[i]))
  {
    SplitJoin(ps, ',');
    StrippedPiecesOfPadded(ps, seq(|ps|, i requires 0 <= i < |ps| => Strip(ps[i])));
  }

  lemma {:induction false} BlankPiecesVanish(parts: seq<string>)
    requires forall i, c :: 0 <= i < |parts| && c in parts[i] ==> IsSpace(c)
    ensures StrippedPieces(parts) == []
    decreases |parts|
  {
    if parts != [] {
      BlankStrip(parts[0]);
      BlankPiecesVanish(parts[1..]);
    }
  }

  /** A setting made only of commas and blanks (such as ",") is not blank,
      yet lists no group: every group chat is refused. */
  lemma SeparatorsOnlyRefuseAll(setting: string, groupId: string)
    requires Strip(setting) != []
    requires forall i :: 0 <= i < |setting| ==> setting[i] == ',' || IsSpace(setting[i])
    requires groupId != []
    ensures Refused(setting, groupId)
  {
    var parts := Split(setting, ',');
    forall i, c | 0 <= i < |parts| && c in parts[i]
      ensures IsSpace(c)
    {
      assert c in setting;
    }
    BlankPiecesVanish(parts);
  }

  /** A listed group is admitted; a group chat not listed under a
      non-blank setting is refused. */
  lemma ListedGroupsAdmitted(gs: seq<string>, groupId: string)
    requires forall g :: g in gs ==> g != [] && !IsSpace(g[0]) && !IsSpace(g[|g| - 1]) && ',' !in g
    requires groupId != []
    ensures Refused(Join(gs, ','), groupId) <==> Strip(Join(gs, ',')) != [] && groupId !in gs
  {
    AllowedGroupsRoundTrip(gs);
  }
}
