/** The manual order of notes: pinned notes hold keys 1 to 999 of their notebook, the others keys from 1000 on; the Inbox is one list. */
module Ordering {
  import opened Wrappers
  import Pagination

  type u32 = x: int | 0 <= x < 0x1_0000_0000

  type NoteId = nat
  type NotebookId = nat

  const INBOX: NotebookId := 0
  const PIN_MAX: u32 := 999
  const NORMAL_START: u32 := 1000
  const RESEQUENCE_STEP: u32 := 1000
  const MAX_NOTES_PER_NOTEBOOK := 16777216
  const U32_MAX: u32 := 0xFFFF_FFFF

  datatype Note = Note(notebook: NotebookId, pinned: bool, sortKey: u32, deleted: bool)

  // Notes from before there were keys have key 0 and sort as the first normal key.
  function EffectiveKey(note: Note): u32 {
    if note.sortKey == 0 then NORMAL_START else note.sortKey
  }

  predicate InPinBand(key: u32) {
    1 <= key <= PIN_MAX
  }

  function SaturatingAdd(a: u32, b: u32): u32 {
    if a + b > U32_MAX then U32_MAX else a + b
  }

  // ---- The profile of a notebook ----

  datatype Profile = Profile(pinnedKeys: seq<u32>, minKey: Option<u32>, maxNormalKey: Option<u32>, liveNotes: nat)

  function InsertKey(keys: seq<u32>, key: u32): seq<u32> {
    if keys == [] || keys[|keys| - 1] <= key then keys + [key] else InsertKey(keys[..|keys| - 1], key) + [keys[|keys| - 1]]
  }

  function LeastOf(o: Option<u32>, key: u32): Option<u32> {
    if o.Some? && o.value <= key then o else Some(key)
  }

  function GreatestOf(o: Option<u32>, key: u32): Option<u32> {
    if o.Some? && o.value >= key then o else Some(key)
  }

  function FromEffectiveKeys(keys: seq<u32>): Profile {
    if keys == [] then Profile([], None, None, 0)
    else
      var p, key := FromEffectiveKeys(keys[..|keys| - 1]), keys[|keys| - 1];
      Profile(if InPinBand(key) then InsertKey(p.pinnedKeys, key) else p.pinnedKeys,
              LeastOf(p.minKey, key),
              if InPinBand(key) then p.maxNormalKey else GreatestOf(p.maxNormalKey, key),
              p.liveNotes + 1)
  }

  predicate Ascending(keys: seq<u32>) {
    forall i, j :: 0 <= i < j < |keys| ==> keys[i] <= keys[j]
  }

  lemma {:induction false} InsertKeySorts(keys: seq<u32>, key: u32)
    requires Ascending(keys)
    ensures Ascending(InsertKey(keys, key))
    ensures forall k :: k in InsertKey(keys, key) <==> k in keys || k == key
  {
    if keys != [] && keys[|keys| - 1] > key {
      var front, last := keys[..|keys| - 1], keys[|keys| - 1];
      InsertKeySorts(front, key);
      assert keys == front + [last];
      var r := InsertKey(front, key);
      forall i | 0 <= i < |r| ensures r[i] <= last {
        assert r[i] in r;
        assert r[i] in front || r[i] == key;
      }
    }
  }

  predicate IsPinnedList(pinned: seq<u32>, keys: seq<u32>) {
    Ascending(pinned) && (forall k <- pinned :: k in keys && InPinBand(k)) && (forall k <- keys :: InPinBand(k) ==> k in pinned)
  }

  predicate IsLeast(o: Option<u32>, keys: seq<u32>) {
    match o
    case None => keys == []
    case Some(least) => least in keys && forall k <- keys :: least <= k
  }

  predicate IsGreatestNormal(o: Option<u32>, keys: seq<u32>) {
    match o
    case None => forall k <- keys :: InPinBand(k)
    case Some(greatest) => greatest in keys && !InPinBand(greatest) && forall k <- keys :: InPinBand(k) || k <= greatest
  }

  lemma OneMorePinned(pinned: seq<u32>, keys: seq<u32>, key: u32)
    requires IsPinnedList(pinned, keys)
    ensures IsPinnedList(if InPinBand(key) then InsertKey(pinned, key) else pinned, keys + [key])
  {
    InsertKeySorts(pinned, key);
  }

  lemma OneMoreLeast(o: Option<u32>, keys: seq<u32>, key: u32)
    requires IsLeast(o, keys)
    ensures IsLeast(LeastOf(o, key), keys + [key])
  {
  }

  lemma OneMoreGreatest(o: Option<u32>, keys: seq<u32>, key: u32)
    requires IsGreatestNormal(o, keys)
    ensures IsGreatestNormal(if InPinBand(key) then o else GreatestOf(o, key), keys + [key])
  {
  }

  /** What the profile says: the keys of the pin band in order, the least key of all, the greatest outside the band, and how many there are. */
  lemma {:induction false} ProfileMeaning(keys: seq<u32>)
    ensures IsPinnedList(FromEffectiveKeys(keys).pinnedKeys, keys)
    ensures IsLeast(FromEffectiveKeys(keys).minKey, keys)
    ensures IsGreatestNormal(FromEffectiveKeys(keys).maxNormalKey, keys)
    ensures FromEffectiveKeys(keys).liveNotes == |keys|
  {
    if keys != [] {
      var front, key := keys[..|keys| - 1], keys[|keys| - 1];
      ProfileMeaning(front);
      assert keys == front + [key];
      var p := FromEffectiveKeys(front);
      OneMorePinned(p.pinnedKeys, front, key);
      OneMoreLeast(p.minKey, front, key);
      OneMoreGreatest(p.maxNormalKey, front, key);
    }
  }

  /** The program's loop: the pinned keys are collected as they come, and sorted at the end. */
  method ProfileByLoop(keys: seq<u32>) returns (p: Profile)
    ensures p == FromEffectiveKeys(keys)
  {
    var pinned: seq<u32> := [];
    var least: Option<u32>, greatest: Option<u32>, live := None, None, 0;
    for k := 0 to |keys|
      invariant FromEffectiveKeys(keys[..k]) == Profile(SortKeys(pinned), least, greatest, live)
    {
      assert keys[..k + 1][..k] == keys[..k];
      var key := keys[k];
      live := live + 1;
      least := if least.Some? && least.value <= key then least else Some(key);
      if 1 <= key < 1000 {
        assert (pinned + [key])[..|pinned|] == pinned;
        pinned := pinned + [key];
      } else {
        greatest := if greatest.Some? && greatest.value >= key then greatest else Some(key);
      }
    }
    assert keys[..|keys|] == keys;
    p := Profile(SortKeys(pinned), least, greatest, live);
  }

  function SortKeys(keys: seq<u32>): seq<u32> {
    if keys == [] then [] else InsertKey(SortKeys(keys[..|keys| - 1]), keys[|keys| - 1])
  }

  // ---- The lowest free pinned key ----

  function LowestFree(used: seq<u32>, i: nat, candidate: nat): nat
    requires i <= |used|
    decreases |used| - i
  {
    if i == |used| || used[i] > candidate then candidate
    else LowestFree(used, i + 1, if used[i] == candidate then candidate + 1 else candidate)
  }

  function LowestFreePinnedKey(used: seq<u32>): Option<u32> {
    var candidate := LowestFree(used, 0, 1);
    if 1 <= candidate <= PIN_MAX then Some(candidate) else None
  }

  predicate Full(used: seq<u32>, candidate: nat) {
    forall n: u32 :: 1 <= n < candidate ==> n in used
  }

  lemma {:induction false} LowestFreeIsLeast(used: seq<u32>, i: nat, candidate: nat)
    requires i <= |used| && Ascending(used) && candidate >= 1
    requires forall k :: 0 <= k < i ==> used[k] < candidate
    requires Full(used, candidate)
    ensures var r := LowestFree(used, i, candidate);
            r >= candidate && Full(used, r) && forall k :: 0 <= k < |used| ==> used[k] != r
    decreases |used| - i
  {
    if i < |used| && used[i] <= candidate {
      LowestFreeIsLeast(used, i + 1, if used[i] == candidate then candidate + 1 else candidate);
    }
  }

  /** A pin gets the least key of the band that is not used, and none exactly when all 999 are. */
  lemma LowestFreePinnedKeyIff(used: seq<u32>)
    requires Ascending(used)
    ensures match LowestFreePinnedKey(used)
            case Some(k) => InPinBand(k) && k !in used && forall n: u32 :: 1 <= n < k ==> n in used
            case None => forall n: u32 :: InPinBand(n) ==> n in used
  {
    LowestFreeIsLeast(used, 0, 1);
  }

  method LowestFreeByLoop(used: seq<u32>) returns (key: Option<u32>)
    ensures key == LowestFreePinnedKey(used)
  {
    var candidate: nat := 1;
    var i := 0;
    while i < |used|
      invariant i <= |used| && candidate >= 1
      invariant LowestFree(used, i, candidate) == LowestFree(used, 0, 1)
    {
      if used[i] > candidate {
        break;
      }
      if used[i] == candidate {
        candidate := candidate + 1;
      }
      i := i + 1;
    }
    key := if candidate <= PIN_MAX then Some(candidate) else None;
  }

  function NextNormalKey(p: Profile): u32 {
    if p.maxNormalKey.Some? then SaturatingAdd(p.maxNormalKey.value, 1) else NORMAL_START
  }

  lemma AfterGreatest(o: Option<u32>, keys: seq<u32>, next: u32)
    requires IsGreatestNormal(o, keys) && forall k <- keys :: k >= 1
    requires next == if o.Some? then SaturatingAdd(o.value, 1) else NORMAL_START
    ensures next >= NORMAL_START
    ensures (forall k <- keys :: k < next) <==> U32_MAX !in keys
  {
  }

  /** The key for the end of a notebook is past every key in it, exactly unless the greatest possible key is taken. */
  lemma NextNormalKeyLastIff(keys: seq<u32>)
    requires forall k <- keys :: k >= 1
    ensures NextNormalKey(FromEffectiveKeys(keys)) >= NORMAL_START
    ensures (forall k <- keys :: k < NextNormalKey(FromEffectiveKeys(keys))) <==> U32_MAX !in keys
  {
    ProfileMeaning(keys);
    var p := FromEffectiveKeys(keys);
    AfterGreatest(p.maxNormalKey, keys, NextNormalKey(p));
  }

  // The key for the end: 1000 in an empty band, else one past the greatest, and the greatest 32-bit key when there is none past it.
  ghost predicate IsNextKey(keys: seq<u32>, next: u32) {
    if forall k <- keys :: InPinBand(k) then next == 1000
    else exists g <- keys :: !InPinBand(g) && (forall k <- keys :: InPinBand(k) || k <= g) && next == if g == 0xFFFF_FFFF then g else g + 1
  }

  lemma NextNormalKeyMeaning(keys: seq<u32>)
    ensures IsNextKey(keys, NextNormalKey(FromEffectiveKeys(keys)))
  {
    ProfileMeaning(keys);
  }

  // ---- Operations on one note ----

  datatype Store = Store(notes: map<NoteId, Note>)

  predicate LiveIn(s: Store, id: NoteId, notebook: NotebookId) {
    id in s.notes && !s.notes[id].deleted && s.notes[id].notebook == notebook
  }

  // What the listing of a notebook's keys returns: the effective key of every live note in it, and nothing else.
  predicate ListsKeys(s: Store, notebook: NotebookId, keys: seq<u32>) {
    && (forall id <- s.notes :: LiveIn(s, id, notebook) ==> EffectiveKey(s.notes[id]) in keys)
    && (forall k <- keys :: exists id <- s.notes :: LiveIn(s, id, notebook) && EffectiveKey(s.notes[id]) == k)
  }

  datatype Outcome = Done | NotFound | InvalidInput | Conflict | NotebookFull | NeedsResequencing

  datatype Op =
    | Create(id: NoteId, note: Note, keys: seq<u32>, inbox: seq<NoteId>)
    | Pin(id: NoteId, keys: seq<u32>)
    | Unpin(id: NoteId, keys: seq<u32>)
    | Reorder(id: NoteId, key: u32)
    | MoveTo(id: NoteId, notebook: NotebookId, keys: seq<u32>, inbox: seq<NoteId>)
    | Delete(id: NoteId)

  // A note that already has a key is left as it is. An Inbox whose first key is 1 or less has to be resequenced first.
  function Place(note: Note, keys: seq<u32>): (Note, Outcome) {
    var p := FromEffectiveKeys(keys);
    if note.sortKey != 0 then (note, Done)
    else if p.liveNotes >= MAX_NOTES_PER_NOTEBOOK then (note, NotebookFull)
    else if note.notebook == INBOX then
      if p.minKey.None? then (note.(sortKey := NORMAL_START), Done)
      else if p.minKey.value <= 1 then (note, NeedsResequencing)
      else (note.(sortKey := p.minKey.value - 1), Done)
    else (note.(sortKey := NextNormalKey(p)), Done)
  }

  // The listing of the Inbox: its live notes by effective key, then id.
  predicate ListsInbox(s: Store, inbox: seq<NoteId>) {
    && (forall id <- inbox :: LiveIn(s, id, INBOX))
    && (forall id <- s.notes :: LiveIn(s, id, INBOX) ==> id in inbox)
    && (forall i, j :: 0 <= i < j < |inbox| ==> Before(s, inbox[i], inbox[j]))
  }

  predicate Before(s: Store, x: NoteId, y: NoteId) {
    && x in s.notes && y in s.notes
    && (EffectiveKey(s.notes[x]) < EffectiveKey(s.notes[y]) || (EffectiveKey(s.notes[x]) == EffectiveKey(s.notes[y]) && x < y))
  }

  // The listing fits the page that the program asks for.
  predicate OnePage(inbox: seq<NoteId>) {
    |inbox| <= Pagination.EffectivePageSize(0)
  }

  function WithKey(note: Note, key: u32): Note {
    if EffectiveKey(note) != key then note.(sortKey := key) else note
  }

  // The notes of one page get the keys 1000, 2000, and so on.
  function Resequenced(notes: map<NoteId, Note>, page: seq<NoteId>): map<NoteId, Note>
    requires OnePage(page) && forall id <- page :: id in notes
    ensures Resequenced(notes, page).Keys == notes.Keys
  {
    if page == [] then notes
    else
      var n, id := |page| - 1, page[|page| - 1];
      var done := Resequenced(notes, page[..n]);
      done[id := WithKey(done[id], RESEQUENCE_STEP * (n + 1))]
  }

  // What placing a note does to the store, the placed note, and how it went.
  function PlaceIn(s: Store, note: Note, keys: seq<u32>, inbox: seq<NoteId>): (Store, Note, Outcome) {
    var (placed, outcome) := Place(note, keys);
    if outcome.NeedsResequencing? && OnePage(inbox) && forall id <- inbox :: id in s.notes
    then (Store(Resequenced(s.notes, inbox)), note.(sortKey := RESEQUENCE_STEP - 1), Done)
    else (s, placed, outcome)
  }

  predicate InBand(note: Note, key: u32) {
    if note.notebook == INBOX then key >= 1
    else if note.pinned then InPinBand(key)
    else key >= NORMAL_START
  }

  function Put(s: Store, id: NoteId, note: Note): Store {
    Store(s.notes[id := note])
  }

  predicate Live(s: Store, id: NoteId) {
    id in s.notes && !s.notes[id].deleted
  }

  // A note in another notebook starts without pin and key.
  function Moved(note: Note, notebook: NotebookId): Note {
    note.(notebook := notebook, pinned := false, sortKey := 0)
  }

  function Next(s: Store, op: Op): (Store, Outcome) {
    match op
    case Create(id, note, keys, inbox) =>
      var (t, placed, outcome) := PlaceIn(s, note, keys, inbox);
      if outcome.Done? then (Put(t, id, placed), Done) else (s, outcome)
    case Pin(id, keys) =>
      if !Live(s, id) then (s, NotFound)
      else
        var note := s.notes[id];
        if note.notebook == INBOX then (s, InvalidInput)
        else if note.pinned then (s, Done)
        else
          var key := LowestFreePinnedKey(FromEffectiveKeys(keys).pinnedKeys);
          if key.None? then (s, Conflict) else (Put(s, id, note.(pinned := true, sortKey := key.value)), Done)
    case Unpin(id, keys) =>
      if !Live(s, id) then (s, NotFound)
      else
        var note := s.notes[id];
        if !note.pinned then (s, Done)
        else (Put(s, id, note.(pinned := false, sortKey := NextNormalKey(FromEffectiveKeys(keys)))), Done)
    case Reorder(id, key) =>
      if !Live(s, id) then (s, NotFound)
      else
        var note := s.notes[id];
        if !InBand(note, key) then (s, InvalidInput) else (Put(s, id, note.(sortKey := key)), Done)
    case MoveTo(id, notebook, keys, inbox) =>
      if !Live(s, id) then (s, NotFound)
      else
        var note := s.notes[id];
        if note.notebook == notebook then (s, Done)
        else
          var (t, placed, outcome) := PlaceIn(s, Moved(note, notebook), keys, inbox);
          if outcome.Done? then (Put(t, id, placed), Done) else (s, outcome)
    case Delete(id) =>
      if id !in s.notes then (s, NotFound) else (Put(s, id, s.notes[id].(deleted := true)), Done)
  }

  predicate Enabled(s: Store, op: Op) {
    match op
    case Create(id, note, keys, inbox) =>
      id !in s.notes && ListsKeys(s, note.notebook, keys) && (note.notebook == INBOX ==> ListsInbox(s, inbox))
    case Pin(id, keys) => Live(s, id) ==> ListsKeys(s, s.notes[id].notebook, keys)
    case Unpin(id, keys) => Live(s, id) ==> ListsKeys(s, s.notes[id].notebook, keys)
    case MoveTo(_, notebook, keys, inbox) => ListsKeys(s, notebook, keys) && (notebook == INBOX ==> ListsInbox(s, inbox))
    case _ => true
  }

  // ---- Pinned means the pin band ----

  predicate Banded(note: Note) {
    if note.notebook == INBOX then !note.pinned else note.pinned <==> InPinBand(EffectiveKey(note))
  }

  predicate AllBanded(s: Store) {
    forall id <- s.notes :: !s.notes[id].deleted ==> Banded(s.notes[id])
  }

  lemma KeysPositive(s: Store, notebook: NotebookId, keys: seq<u32>)
    requires ListsKeys(s, notebook, keys)
    ensures forall k <- keys :: k >= 1
  {
  }

  /** Placing a new note keeps the bands exactly if it comes without a key and unpinned, or with a key of its band. */
  lemma PlaceBandedIff(s: Store, note: Note, keys: seq<u32>)
    requires ListsKeys(s, note.notebook, keys) && Place(note, keys).1.Done?
    ensures Banded(Place(note, keys).0) <==> if note.sortKey == 0 then !note.pinned else Banded(note)
  {
    KeysPositive(s, note.notebook, keys);
    ProfileMeaning(keys);
  }

  predicate Proper(op: Op) {
    op.Create? ==> if op.note.sortKey == 0 then !op.note.pinned else Banded(op.note)
  }

  predicate SameButKey(m: Note, n: Note) {
    m == n.(sortKey := m.sortKey)
  }

  // Of the notes nothing has changed but keys, those not of the page not at all, and those of the page to the multiples of 1000 in its order.
  predicate Numbered(notes: map<NoteId, Note>, done: map<NoteId, Note>, page: seq<NoteId>) {
    && done.Keys == notes.Keys && (forall id <- page :: id in notes)
    && (forall id <- notes :: SameButKey(done[id], notes[id]) && (id !in page ==> done[id] == notes[id]))
    && (forall i :: 0 <= i < |page| ==> EffectiveKey(done[page[i]]) == 1000 * (i + 1))
  }

  lemma OneMoreNumbered(notes: map<NoteId, Note>, done: map<NoteId, Note>, front: seq<NoteId>, id: NoteId, key: u32)
    requires Numbered(notes, done, front) && id in notes && id !in front && key == RESEQUENCE_STEP * (|front| + 1)
    ensures Numbered(notes, done[id := WithKey(done[id], key)], front + [id])
  {
    var next, page := done[id := WithKey(done[id], key)], front + [id];
    forall i | 0 <= i < |page| ensures EffectiveKey(next[page[i]]) == RESEQUENCE_STEP * (i + 1) {
      if i < |front| {
        assert page[i] == front[i] && front[i] in front;
      }
    }
    forall x <- notes ensures SameButKey(next[x], notes[x]) {
      assert SameButKey(done[x], notes[x]);
    }
  }

  /** Renumbering a page gives its notes the keys 1000, 2000 and so on in their order, and changes nothing else. */
  lemma {:induction false} ResequencedMeaning(notes: map<NoteId, Note>, page: seq<NoteId>)
    requires OnePage(page) && forall id <- page :: id in notes
    requires forall i, j :: 0 <= i < j < |page| ==> page[i] != page[j]
    ensures Numbered(notes, Resequenced(notes, page), page)
  {
    if page != [] {
      var n, front, id := |page| - 1, page[..|page| - 1], page[|page| - 1];
      ResequencedMeaning(notes, front);
      assert page == front + [id] && id !in front;
      OneMoreNumbered(notes, Resequenced(notes, front), front, id, RESEQUENCE_STEP * (n + 1));
    }
  }

  lemma InboxDistinct(s: Store, inbox: seq<NoteId>)
    requires ListsInbox(s, inbox)
    ensures forall i, j :: 0 <= i < j < |inbox| ==> inbox[i] != inbox[j]
  {
    forall i, j | 0 <= i < j < |inbox| ensures inbox[i] != inbox[j] {
      assert Before(s, inbox[i], inbox[j]);
    }
  }

  lemma PlacingKeepsBands(s: Store, note: Note, keys: seq<u32>, inbox: seq<NoteId>)
    requires AllBanded(s) && ListsKeys(s, note.notebook, keys) && (note.notebook == INBOX ==> ListsInbox(s, inbox))
    requires if note.sortKey == 0 then !note.pinned else Banded(note)
    ensures var (t, placed, outcome) := PlaceIn(s, note, keys, inbox); AllBanded(t) && (outcome.Done? ==> Banded(placed))
  {
    if Place(note, keys).1.Done? {
      PlaceBandedIff(s, note, keys);
    } else if Place(note, keys).1.NeedsResequencing? && OnePage(inbox) {
      InboxDistinct(s, inbox);
      ResequencedMeaning(s.notes, inbox);
    }
  }

  lemma StepKeepsBands(s: Store, op: Op)
    requires AllBanded(s) && Enabled(s, op) && Proper(op)
    ensures AllBanded(Next(s, op).0)
  {
    match op
    case Create(_, note, keys, inbox) =>
      PlacingKeepsBands(s, note, keys, inbox);
    case Pin(id, keys) =>
      ProfileMeaning(keys);
      LowestFreePinnedKeyIff(FromEffectiveKeys(keys).pinnedKeys);
    case Unpin(id, keys) =>
      if Live(s, id) {
        KeysPositive(s, s.notes[id].notebook, keys);
        NextNormalKeyLastIff(keys);
      }
    case MoveTo(id, notebook, keys, inbox) =>
      if Live(s, id) {
        PlacingKeepsBands(s, Moved(s.notes[id], notebook), keys, inbox);
      }
    case _ =>
  }

  predicate Legal(s: Store, ops: seq<Op>)
    decreases |ops|, 0
  {
    ops == [] || (
      var k := |ops| - 1;
      Legal(s, ops[..k]) && Enabled(Run(s, ops[..k]), ops[k]) && Proper(ops[k]))
  }

  function Run(s: Store, ops: seq<Op>): Store
    requires Legal(s, ops)
    decreases |ops|, 1
  {
    if ops == [] then s else Next(Run(s, ops[..|ops| - 1]), ops[|ops| - 1]).0
  }

  /** Over any sequence of operations, a live note of a normal notebook is pinned exactly when its key is in 1 to 999, and no Inbox note is pinned. */
  lemma PinnedIffInBand(s: Store, ops: seq<Op>, id: NoteId)
    requires AllBanded(s) && Legal(s, ops) && Live(Run(s, ops), id)
    ensures Banded(Run(s, ops).notes[id])
  {
    RunKeepsBands(s, ops);
  }

  lemma {:induction false} RunKeepsBands(s: Store, ops: seq<Op>)
    requires AllBanded(s) && Legal(s, ops)
    ensures AllBanded(Run(s, ops))
  {
    if ops != [] {
      var k := |ops| - 1;
      RunKeepsBands(s, ops[..k]);
      StepKeepsBands(Run(s, ops[..k]), ops[k]);
    }
  }

  // ---- Where a note lands ----

  predicate Held(s: Store, notebook: NotebookId, k: u32) {
    exists x <- s.notes :: LiveIn(s, x, notebook) && EffectiveKey(s.notes[x]) == k
  }

  lemma ListedIffHeld(s: Store, notebook: NotebookId, keys: seq<u32>, k: u32)
    requires ListsKeys(s, notebook, keys)
    ensures k in keys <==> Held(s, notebook, k)
  {
  }

  /** Pinning fails only when every pinned key of the notebook is held by a live note; otherwise it takes the least that none holds. */
  lemma PinTakesLeastFree(s: Store, id: NoteId, keys: seq<u32>)
    requires Enabled(s, Pin(id, keys)) && Live(s, id) && s.notes[id].notebook != INBOX && !s.notes[id].pinned
    ensures var nb, outcome := s.notes[id].notebook, Next(s, Pin(id, keys)).1;
            outcome == if forall k: u32 :: InPinBand(k) ==> Held(s, nb, k) then Conflict else Done
    ensures var nb, (t, outcome) := s.notes[id].notebook, Next(s, Pin(id, keys));
            outcome.Done? ==> var key := t.notes[id].sortKey;
                              && t.notes == s.notes[id := s.notes[id].(pinned := true, sortKey := key)]
                              && InPinBand(key) && !Held(s, nb, key)
                              && forall k: u32 :: 1 <= k < key ==> Held(s, nb, k)
  {
    ProfileMeaning(keys);
    var pinned := FromEffectiveKeys(keys).pinnedKeys;
    LowestFreePinnedKeyIff(pinned);
    forall k: u32 | InPinBand(k) ensures k in pinned <==> Held(s, s.notes[id].notebook, k) {
      ListedIffHeld(s, s.notes[id].notebook, keys, k);
    }
  }

  /** A note without a key that is created in, or moved to, a normal notebook lands strictly last there, exactly unless the greatest key is taken. */
  lemma PlacedLastIff(s: Store, note: Note, keys: seq<u32>)
    requires ListsKeys(s, note.notebook, keys) && note.sortKey == 0 && note.notebook != INBOX && Place(note, keys).1.Done?
    ensures (forall x <- s.notes :: LiveIn(s, x, note.notebook) ==> EffectiveKey(s.notes[x]) < EffectiveKey(Place(note, keys).0))
            <==> forall x <- s.notes :: LiveIn(s, x, note.notebook) ==> EffectiveKey(s.notes[x]) != U32_MAX
  {
    KeysPositive(s, note.notebook, keys);
    NextNormalKeyLastIff(keys);
  }

  /** The key a placed note gets, and when it is refused: a notebook takes 2^24 notes. */
  lemma PlaceMeaning(s: Store, note: Note, keys: seq<u32>, inbox: seq<NoteId>)
    requires ListsKeys(s, note.notebook, keys) && note.sortKey == 0
    ensures var (t, placed, outcome) := PlaceIn(s, note, keys, inbox);
            && (outcome.NotebookFull? <==> |keys| >= 16777216)
            && placed == note.(sortKey := placed.sortKey)
            && (outcome.Done? && note.notebook != INBOX ==> t == s && IsNextKey(keys, placed.sortKey))
            && (outcome.Done? && note.notebook == INBOX ==>
                  IsInboxKey(keys, placed.sortKey) && (keys == [] || (forall k <- keys :: k > 1) ==> t == s))
    ensures note.notebook != INBOX || OnePage(inbox) ==> !PlaceIn(s, note, keys, inbox).2.NeedsResequencing? || exists id <- inbox :: id !in s.notes
  {
    ProfileMeaning(keys);
    NextNormalKeyMeaning(keys);
  }

  lemma PlaceLeavesKeyed(s: Store, note: Note, keys: seq<u32>, inbox: seq<NoteId>)
    requires note.sortKey != 0
    ensures PlaceIn(s, note, keys, inbox) == (s, note, Done)
  {
  }

  // The key of a note that comes into the Inbox: just in front of the first, and of 1000 if there is none, or if the others had to be renumbered from 1000.
  predicate IsInboxKey(keys: seq<u32>, key: u32) {
    if keys == [] then key == 1000
    else if forall k <- keys :: k > 1 then key + 1 in keys && forall k <- keys :: key < k
    else key == 999
  }

  // A note that comes into a notebook is stored as it comes, with a key of its own if it has none, or refused by a full notebook.
  ghost predicate ArrivesAs(s: Store, t: Store, outcome: Outcome, id: NoteId, note: Note, keys: seq<u32>) {
    if note.sortKey != 0 then outcome.Done? && t.notes == s.notes[id := note]
    else
      && (outcome.NotebookFull? <==> |keys| >= 16777216)
      && if !outcome.Done? then t == s else
           && id in t.notes && t.notes[id] == note.(sortKey := t.notes[id].sortKey)
           && (if note.notebook == 0 then IsInboxKey(keys, t.notes[id].sortKey) else IsNextKey(keys, t.notes[id].sortKey))
           && (note.notebook != 0 || keys == [] || (forall k <- keys :: k > 1) ==> t.notes == s.notes[id := t.notes[id]])
  }

  /** What creating a note and moving one to another notebook leave in the store: a moved note loses its pin and its key. */
  lemma ArrivalMeaning(s: Store, op: Op)
    requires Enabled(s, op)
    ensures var (t, outcome) := Next(s, op);
            match op
            case Create(id, note, keys, _) => ArrivesAs(s, t, outcome, id, note, keys)
            case MoveTo(id, notebook, keys, _) =>
              Live(s, id) && s.notes[id].notebook != notebook ==> ArrivesAs(s, t, outcome, id, Note(notebook, false, 0, false), keys)
            case _ => true
  {
    match op
    case Create(id, note, keys, inbox) =>
      if note.sortKey == 0 {
        PlaceMeaning(s, note, keys, inbox);
      } else {
        PlaceLeavesKeyed(s, note, keys, inbox);
      }
    case MoveTo(id, notebook, keys, inbox) =>
      if Live(s, id) && s.notes[id].notebook != notebook {
        PlaceMeaning(s, Moved(s.notes[id], notebook), keys, inbox);
      }
    case _ =>
  }

  // Only this note is other than before.
  predicate OnlyChanges(s: Store, t: Store, id: NoteId) {
    t.notes.Keys == s.notes.Keys && forall x <- s.notes :: x != id ==> t.notes[x] == s.notes[x]
  }

  /** Unpinned, a note is strictly behind every other live one of its notebook, exactly unless one of those holds the greatest key; nothing else changes. */
  lemma UnpinnedLastIff(s: Store, id: NoteId, keys: seq<u32>)
    requires Enabled(s, Unpin(id, keys)) && Live(s, id) && s.notes[id].pinned
    ensures var (t, outcome) := Next(s, Unpin(id, keys));
            var nb, key := s.notes[id].notebook, if id in t.notes then t.notes[id].sortKey else 0;
            && outcome.Done? && OnlyChanges(s, t, id) && t.notes[id] == s.notes[id].(pinned := false, sortKey := key) && IsNextKey(keys, key)
            && ((forall x <- s.notes :: x != id && LiveIn(s, x, nb) ==> EffectiveKey(s.notes[x]) < key)
                <==> forall x <- s.notes :: x != id && LiveIn(s, x, nb) ==> EffectiveKey(s.notes[x]) != 0xFFFF_FFFF)
  {
    KeysPositive(s, s.notes[id].notebook, keys);
    NextNormalKeyMeaning(keys);
    AtMostNext(keys);
  }

  lemma AtMostNext(keys: seq<u32>)
    requires forall k <- keys :: k >= 1
    ensures forall k <- keys :: k < NextNormalKey(FromEffectiveKeys(keys)) || k == NextNormalKey(FromEffectiveKeys(keys)) == 0xFFFF_FFFF
  {
    NextNormalKeyMeaning(keys);
  }

  /** What each other operation on a note answers, and that it changes just what was asked. */
  lemma OperationMeaning(s: Store, op: Op)
    ensures var (t, outcome) := Next(s, op);
            match op
            case Create(_, _, _, _) => true
            case Pin(id, _) =>
              && (outcome.NotFound? <==> !Live(s, id))
              && (Live(s, id) && s.notes[id].notebook == 0 ==> outcome.InvalidInput?)
              && (Live(s, id) && s.notes[id].notebook != 0 && s.notes[id].pinned ==> outcome.Done? && t == s)
              && (!outcome.Done? ==> t == s)
            case Unpin(id, _) =>
              if !Live(s, id) then outcome.NotFound? && t == s else outcome.Done? && (!s.notes[id].pinned ==> t == s)
            case Reorder(id, key) =>
              if !Live(s, id) then outcome.NotFound? && t == s
              else if (if s.notes[id].notebook == 0 then key == 0 else if s.notes[id].pinned then key == 0 || key > 999 else key < 1000)
              then outcome.InvalidInput? && t == s
              else outcome.Done? && OnlyChanges(s, t, id) && t.notes[id] == s.notes[id].(sortKey := key)
            case MoveTo(id, notebook, _, _) =>
              if !Live(s, id) then outcome.NotFound? && t == s
              else if s.notes[id].notebook == notebook || !outcome.Done? then t == s
              else
                && t.notes.Keys == s.notes.Keys && t.notes[id] == Note(notebook, false, t.notes[id].sortKey, false)
                && (notebook != 0 ==> OnlyChanges(s, t, id))
            case Delete(id) =>
              if id !in s.notes then outcome.NotFound? && t == s
              else outcome.Done? && OnlyChanges(s, t, id) && t.notes[id] == s.notes[id].(deleted := true)
  {
  }

  /** The exception arises: a note reordered to the greatest key, and the next one created beside it gets the same key. */
  lemma GreatestKeyIsShared() returns (ops: seq<Op>)
    ensures Legal(Store(map[]), ops) && Run(Store(map[]), ops).notes.Keys == {1, 2}
    ensures forall id <- Run(Store(map[]), ops).notes :: Run(Store(map[]), ops).notes[id] == Note(7, false, U32_MAX, false)
  {
    var none, blank := Store(map[]), Note(7, false, 0, false);
    var create, reorder, another := Create(1, blank, [], []), Reorder(1, U32_MAX), Create(2, blank, [U32_MAX], []);
    var first := Store(map[1 := blank.(sortKey := NORMAL_START)]);
    assert Next(none, create).0 == first;
    var second := Store(map[1 := blank.(sortKey := U32_MAX)]);
    assert Next(first, reorder).0 == second;
    KeyAfterGreatest();
    assert ListsKeys(second, 7, [U32_MAX]) by {
      assert LiveIn(second, 1, 7);
    }
    ops := [create, reorder, another];
    assert ops[..2] == [create, reorder] && ops[..2][..1] == [create] && ops[..2][..1][..0] == [];
    assert Legal(none, []) && Run(none, []) == none;
    assert Legal(none, [create]) && Run(none, [create]) == first;
    assert Legal(none, [create, reorder]) && Run(none, [create, reorder]) == second;
  }

  lemma KeyAfterGreatest()
    ensures NextNormalKey(FromEffectiveKeys([U32_MAX])) == U32_MAX && FromEffectiveKeys([U32_MAX]).liveNotes == 1
    ensures NextNormalKey(FromEffectiveKeys([])) == NORMAL_START
  {
    assert [U32_MAX][..0] == [];
    assert FromEffectiveKeys([]).maxNormalKey == None;
  }

  /** A note without a key that lands in the Inbox lands strictly first there, also when the Inbox, being one page, is resequenced for it. */
  lemma InboxPlacedFirst(s: Store, note: Note, keys: seq<u32>, inbox: seq<NoteId>)
    requires ListsKeys(s, INBOX, keys) && ListsInbox(s, inbox) && note.sortKey == 0 && note.notebook == INBOX
    ensures var (t, placed, outcome) := PlaceIn(s, note, keys, inbox);
            && (outcome.Done? ==> forall x <- t.notes :: LiveIn(t, x, INBOX) ==> EffectiveKey(placed) < EffectiveKey(t.notes[x]))
            && (OnePage(inbox) ==> outcome.Done? || outcome.NotebookFull?)
  {
    ProfileMeaning(keys);
    if Place(note, keys).1.NeedsResequencing? && OnePage(inbox) {
      InboxDistinct(s, inbox);
      ResequencedMeaning(s.notes, inbox);
      var t := PlaceIn(s, note, keys, inbox).0;
      forall x <- t.notes | LiveIn(t, x, INBOX) ensures EffectiveKey(t.notes[x]) >= RESEQUENCE_STEP {
        assert LiveIn(s, x, INBOX);
        var i :| 0 <= i < |inbox| && inbox[i] == x;
      }
    }
  }

  /** Placing a note keeps every note as it is but for the keys of the Inbox, and those in their order. */
  lemma PlacingKeepsOrder(s: Store, note: Note, keys: seq<u32>, inbox: seq<NoteId>, x: NoteId, y: NoteId)
    requires ListsInbox(s, inbox) && x in s.notes && y in s.notes
    ensures var t := PlaceIn(s, note, keys, inbox).0;
            && t.notes.Keys == s.notes.Keys && t.notes[x] == s.notes[x].(sortKey := t.notes[x].sortKey)
            && (!LiveIn(s, x, INBOX) ==> t.notes[x] == s.notes[x])
            && (LiveIn(s, x, INBOX) && LiveIn(s, y, INBOX) ==> (Before(s, x, y) <==> Before(t, x, y)))
  {
    if Place(note, keys).1.NeedsResequencing? && OnePage(inbox) {
      InboxDistinct(s, inbox);
      ResequencedMeaning(s.notes, inbox);
      if LiveIn(s, x, INBOX) && LiveIn(s, y, INBOX) {
        var i :| 0 <= i < |inbox| && inbox[i] == x;
        var j :| 0 <= j < |inbox| && inbox[j] == y;
        assert i < j ==> Before(s, x, y);
        assert j < i ==> Before(s, y, x);
      }
    }
  }

  // ---- The operations as the program performs them ----

  /** The notes behind the ordering operations; the keys of a notebook are read from the store below. */
  class OrderedNotes {
    var notes: map<NoteId, Note>

    ghost function Value(): Store
      reads this
    {
      Store(notes)
    }

    constructor ()
      ensures Value() == Store(map[])
    {
      notes := map[];
    }

    method PlaceNewNote(note: Note, keys: seq<u32>) returns (placed: Note, outcome: Outcome)
      ensures (placed, outcome) == Place(note, keys)
    {
      placed, outcome := note, Done;
      if note.sortKey != 0 {
        return;
      }
      var profile := ProfileByLoop(keys);
      if profile.liveNotes >= MAX_NOTES_PER_NOTEBOOK {
        outcome := NotebookFull;
      } else if note.notebook != INBOX {
        placed := note.(sortKey := NextNormalKey(profile));
      } else if profile.minKey.None? {
        placed := note.(sortKey := NORMAL_START);
      } else if profile.minKey.value <= 1 {
        outcome := NeedsResequencing;
      } else {
        placed := note.(sortKey := profile.minKey.value - 1);
      }
    }

    // One page of the Inbox, note by note.
    method ResequenceInbox(inbox: seq<NoteId>) returns (step: u32)
      requires OnePage(inbox) && forall id <- inbox :: id in notes
      modifies this
      ensures notes == Resequenced(old(notes), inbox) && step == RESEQUENCE_STEP
    {
      var next: u32 := RESEQUENCE_STEP;
      for k := 0 to |inbox|
        invariant forall id <- inbox :: id in old(notes)
        invariant OnePage(inbox[..k]) && notes == Resequenced(old(notes), inbox[..k])
        invariant next == RESEQUENCE_STEP * (k + 1)
      {
        assert inbox[..k + 1][..k] == inbox[..k];
        var id := inbox[k];
        if EffectiveKey(notes[id]) != next {
          notes := notes[id := notes[id].(sortKey := next)];
        }
        next := SaturatingAdd(next, RESEQUENCE_STEP);
      }
      assert inbox[..|inbox|] == inbox;
      step := RESEQUENCE_STEP;
    }

    // Placing as the program does it, with the Inbox resequenced first if need be.
    method Placed(note: Note, keys: seq<u32>, inbox: seq<NoteId>) returns (placed: Note, outcome: Outcome)
      requires forall id <- inbox :: id in notes
      modifies this
      ensures (Value(), placed, outcome) == PlaceIn(old(Value()), note, keys, inbox)
    {
      placed, outcome := PlaceNewNote(note, keys);
      if outcome.NeedsResequencing? && OnePage(inbox) {
        var step := ResequenceInbox(inbox);
        placed, outcome := note.(sortKey := step - 1), Done;
      }
    }

    method CreateNote(id: NoteId, note: Note, keys: seq<u32>, inbox: seq<NoteId>) returns (outcome: Outcome)
      requires forall x <- inbox :: x in notes
      modifies this
      ensures (Value(), outcome) == Next(old(Value()), Create(id, note, keys, inbox))
    {
      var placed;
      placed, outcome := Placed(note, keys, inbox);
      if outcome.Done? {
        notes := notes[id := placed];
      }
    }

    method PinNote(id: NoteId, keys: seq<u32>) returns (outcome: Outcome)
      modifies this
      ensures (Value(), outcome) == Next(old(Value()), Pin(id, keys))
    {
      if id !in notes || notes[id].deleted {
        return NotFound;
      }
      var note := notes[id];
      if note.notebook == INBOX {
        return InvalidInput;
      }
      if note.pinned {
        return Done;
      }
      var profile := ProfileByLoop(keys);
      var key := LowestFreeByLoop(profile.pinnedKeys);
      if key.None? {
        return Conflict;
      }
      notes := notes[id := note.(pinned := true, sortKey := key.value)];
      outcome := Done;
    }

    method UnpinNote(id: NoteId, keys: seq<u32>) returns (outcome: Outcome)
      modifies this
      ensures (Value(), outcome) == Next(old(Value()), Unpin(id, keys))
    {
      if id !in notes || notes[id].deleted {
        return NotFound;
      }
      var note := notes[id];
      if !note.pinned {
        return Done;
      }
      var profile := ProfileByLoop(keys);
      notes := notes[id := note.(pinned := false, sortKey := NextNormalKey(profile))];
      outcome := Done;
    }

    method MoveNote(id: NoteId, notebook: NotebookId, keys: seq<u32>, inbox: seq<NoteId>) returns (outcome: Outcome)
      requires forall x <- inbox :: x in notes
      modifies this
      ensures (Value(), outcome) == Next(old(Value()), MoveTo(id, notebook, keys, inbox))
    {
      if id !in notes || notes[id].deleted {
        return NotFound;
      }
      var note := notes[id];
      if note.notebook == notebook {
        return Done;
      }
      var placed;
      placed, outcome := Placed(Moved(note, notebook), keys, inbox);
      if outcome.Done? {
        notes := notes[id := placed];
      }
    }
  }
}
