/**
 Torn indexes that are not repaired. Each is one sync that crashes between the two renames of its save:
 one from a library {x, b} to {b, y}, and one of an edit that is undone before the next sync.
 */
module TornExample {
  import opened Common
  import opened Rows
  import opened IndexFiles
  import opened Sync
  import opened SyncCrash
  import T = TornIndex

  const X := Doc(Entry("x", Movie, "X", None, None, 1), "x")
  const B := Doc(Entry("b", Movie, "B", None, None, 2), "bb")
  const Y := Doc(Entry("y", Movie, "Y", None, None, 3), "yyy")

  const LIBRARY := [B, Y]

  /** Texts of different length have different hashes and vectors here. */
  function LengthHash(text: string): nat {
    |text|
  }

  function LengthVector(text: string): Vector {
    [Min(|text|, 9)]
  }

  const BEFORE := Saved([X.entry, B.entry], [1, 2])
  const AFTER := Saved([B.entry, Y.entry], [2, 3])
  const TORN := Saved(BEFORE.entries, AFTER.vectors)

  const DISK: Files := map[ENTRIES := HeaderFile("m", 1, BEFORE), VECTORS := VectorFile(BEFORE)]

  function SyncJob(): Job {
    var rows := SavedRows(BEFORE, 1);
    Job(DISK, "m", 1, Base(rows, LIBRARY), FullTodo(rows, LIBRARY), LengthVector)
  }

  /** The folder at the crash. */
  function Crashed(): Files {
    SaveStates(DISK, HeaderFile("m", 1, AFTER), VectorFile(AFTER), Raw([]), Raw([]))[4]
  }

  lemma TwoRows(a: Entry, b: Entry, v: F32, w: F32)
    ensures RowsOf([a, b], [v, w], 1) == [Row(a, [v]), Row(b, [w])]
  {
    RowAt([a, b], [v, w], 1, 0);
    RowAt([a, b], [v, w], 1, 1);
    assert Slice([v, w], 1, 0) == [v] && Slice([v, w], 1, 1) == [w];
  }

  lemma LibraryIds()
    ensures DocIds(LIBRARY) == {"b", "y"} && DistinctDocs(LIBRARY)
  {
    assert LIBRARY[0] == B && LIBRARY[1] == Y;
    assert B in LIBRARY && Y in LIBRARY;
  }

  lemma KeptRows()
    ensures Base([RowOf(X, LengthVector), RowOf(B, LengthVector)], LIBRARY) == [RowOf(B, LengthVector)]
  {
    var rows := [RowOf(X, LengthVector), RowOf(B, LengthVector)];
    LibraryIds();
    assert rows[0] in rows && rows[1] in rows;
    assert Ids(rows) == {"x", "b"};
    var gone := Gone(rows, LIBRARY);
    assert gone == {"x"};
    assert rows[..1] == [rows[0]] && rows[..1][..0] == [];
    assert Without([], gone) == [];
    assert Without(rows[..1], gone) == [];
  }

  lemma EmbeddedDocs()
    ensures Todo(Lookup([RowOf(B, LengthVector)]), LIBRARY) == [Y]
  {
    var base := [RowOf(B, LengthVector)];
    assert base[..0] == [];
    var m := Lookup(base);
    assert Lookup([]) == map[];
    assert m == map[][B.entry.id := base[0]];
    assert LIBRARY[..1] == [B] && [B][..0] == [];
    assert Todo(m, []) == [];
    assert Todo(m, [B]) == [];
  }

  lemma StoredRows()
    ensures Stored([RowOf(B, LengthVector)], [Y], LengthVector) == [RowOf(B, LengthVector), RowOf(Y, LengthVector)]
  {
    var base := [RowOf(B, LengthVector)];
    assert [Y][..0] == [] && Stored(base, [], LengthVector) == base;
    assert base[..0] == [] && Find(base, "y") == None;
  }

  /** The sync itself is an ordinary one: it ends with the saved rows, and they agree with the library. */
  lemma {:induction false} SyncIsComplete()
    ensures SyncJob().base == [RowOf(B, LengthVector)] && SyncJob().todo == [Y]
    ensures Progress(SyncJob(), 1) == SavedRows(AFTER, 1) == [RowOf(B, LengthVector), RowOf(Y, LengthVector)]
  {
    hide Base, Todo, Stored;
    TwoRows(X.entry, B.entry, 1, 2);
    TwoRows(B.entry, Y.entry, 2, 3);
    KeptRows();
    EmbeddedDocs();
    StoredRows();
    assert [Y][..1] == [Y];
  }

  /** A load finds the old entries over the new vectors. */
  lemma LoadIsTorn()
    ensures LoadOf(Crashed(), "m", 1) == Some(TORN)
  {
    hide FloatBytes, FloatsOf;
    LateStates(DISK, HeaderFile("m", 1, AFTER), VectorFile(AFTER), Raw([]), Raw([]));
    FloatsRoundTrip(AFTER.vectors);
    SaveNames();
  }

  /** The crash comes between the two renames of the last save: the entry "b" then keeps the vector of
      "y", also after the next full sync. */
  lemma {:induction false} TornIndexStays()
    ensures LoadOf(Crashed(), "m", 1) == Some(TORN) && !Repairs(SyncJob(), TORN, LIBRARY)
  {
    hide Synced, FullTodo, Agrees, Base, Stored, RowsOf, T.HashInPlace, T.Embedded, T.Torn;
    LoadIsTorn();
    TwoRows(B.entry, Y.entry, 2, 3);
    TornRows();
    TextsInPlay();
    MovedHash();
    var rows, torn := SavedRows(AFTER, 1), SavedRows(TORN, 1);
    T.TornStageIsRepaired(BEFORE.entries, rows, torn, LIBRARY, TEXTS, LengthHash, LengthVector);
  }

  const TEXTS := {"bb", "yyy"}

  lemma TornRows()
    ensures T.Torn(BEFORE.entries, SavedRows(AFTER, 1), SavedRows(TORN, 1)) && DistinctIds(BEFORE.entries)
  {
    TwoRows(B.entry, Y.entry, 2, 3);
    TwoRows(X.entry, B.entry, 2, 3);
  }

  lemma TextsInPlay()
    ensures Consistent(LIBRARY) && T.Hashed(LIBRARY, TEXTS, LengthHash)
    ensures T.NoCollision(TEXTS, LengthHash) && T.NoTwins(TEXTS, LengthVector)
    ensures T.Embedded(SavedRows(AFTER, 1), TEXTS, LengthHash, LengthVector)
  {
    LibraryIds();
    TwoRows(B.entry, Y.entry, 2, 3);
    assert LengthHash("bb") == 2 && LengthHash("yyy") == 3;
    assert LengthVector("bb") == [2] && LengthVector("yyy") == [3];
  }

  lemma MovedHash()
    ensures |BEFORE.entries| == |SavedRows(AFTER, 1)| && !T.HashInPlace(BEFORE.entries, SavedRows(AFTER, 1), LIBRARY)
  {
    TwoRows(B.entry, Y.entry, 2, 3);
    assert LIBRARY[0] == B && BEFORE.entries[1] == B.entry && SavedRows(AFTER, 1)[1].entry.hash == 3;
  }

  // An edit that is undone

  const OLD := Doc(Entry("b", Movie, "B", None, None, 1), "a")
  const NEW := B
  const ORIGINAL := Saved([OLD.entry], [1])
  const EDITED := Saved([NEW.entry], [2])
  const HALF := Saved([OLD.entry], [2])
  const FIRST_DISK: Files := map[ENTRIES := HeaderFile("m", 1, ORIGINAL), VECTORS := VectorFile(ORIGINAL)]

  /** The sync that finds the edit. It removes nothing. */
  function EditJob(): Job {
    Job(FIRST_DISK, "m", 1, [RowOf(OLD, LengthVector)], [NEW], LengthVector)
  }

  function CrashedEdit(): Files {
    SaveStates(FIRST_DISK, HeaderFile("m", 1, EDITED), VectorFile(EDITED), Raw([]), Raw([]))[4]
  }

  lemma OneRow(e: Entry, v: F32)
    ensures RowsOf([e], [v], 1) == [Row(e, [v])]
  {
    RowAt([e], [v], 1, 0);
    assert Slice([v], 1, 0) == [v];
  }

  lemma OneLookup(r: Row)
    ensures Lookup([r]) == map[r.entry.id := r] && Ids([r]) == {r.entry.id}
  {
    assert [r][0] in [r];
    assert [r][..0] == [];
    assert Lookup([]) == map[];
  }

  lemma OneDoc(d: Doc)
    ensures DocIds([d]) == {d.entry.id} && Consistent([d])
    ensures forall m :: Todo(m, [d]) == if Current(m, d) then [] else [d]
  {
    assert [d][0] in [d];
    assert [d][..0] == [];
  }

  /** It is the full sync of an index that agreed with the library before the edit. */
  lemma {:induction false} EditIsFullSync()
    ensures EditJob().base == SavedRows(ORIGINAL, 1) == Base(SavedRows(ORIGINAL, 1), [NEW])
    ensures EditJob().todo == FullTodo(SavedRows(ORIGINAL, 1), [NEW])
    ensures Gone(SavedRows(ORIGINAL, 1), [NEW]) == {} && Agrees(SavedRows(ORIGINAL, 1), [OLD], LengthVector)
    ensures Progress(EditJob(), 1) == SavedRows(EDITED, 1)
  {
    hide Todo, Lookup, Base, Stored, Upsert;
    OneRow(OLD.entry, 1);
    OneRow(NEW.entry, 2);
    var row := RowOf(OLD, LengthVector);
    OneLookup(row);
    OneDoc(NEW);
    OneDoc(OLD);
    BaseIsAll([row], [NEW]);
    EditStores();
  }

  lemma EditStores()
    ensures Stored([RowOf(OLD, LengthVector)], [NEW][..1], LengthVector) == [RowOf(NEW, LengthVector)]
  {
    var base := [RowOf(OLD, LengthVector)];
    assert [NEW][..1] == [NEW] && [NEW][..0] == [];
    assert Stored(base, [], LengthVector) == base;
    assert base[..0] == [] && Find(base, "b") == Some(0);
  }

  lemma EditIsTorn()
    ensures LoadOf(CrashedEdit(), "m", 1) == Some(HALF)
  {
    hide FloatBytes, FloatsOf;
    LateStates(FIRST_DISK, HeaderFile("m", 1, EDITED), VectorFile(EDITED), Raw([]), Raw([]));
    FloatsRoundTrip(EDITED.vectors);
    SaveNames();
  }

  const EDIT_TEXTS := {"a", "bb"}

  lemma EditTexts()
    ensures T.Hashed([OLD], EDIT_TEXTS, LengthHash) && T.Hashed([NEW], EDIT_TEXTS, LengthHash)
    ensures T.NoCollision(EDIT_TEXTS, LengthHash) && T.NoTwins(EDIT_TEXTS, LengthVector)
    ensures T.Embedded(SavedRows(EDITED, 1), EDIT_TEXTS, LengthHash, LengthVector)
  {
    OneRow(NEW.entry, 2);
    assert LengthHash("a") == 1 && LengthHash("bb") == 2;
    assert LengthVector("a") == [1] && LengthVector("bb") == [2];
  }

  /** After a crash between the renames the next sync repairs the index if the library still has the edit,
      and it does not if the edit was undone: "b" then keeps the vector of "bb" for the text "a". */
  lemma {:induction false} UndoneEditStays()
    ensures LoadOf(CrashedEdit(), "m", 1) == Some(HALF)
    ensures Repairs(EditJob(), HALF, [NEW]) && !Repairs(EditJob(), HALF, [OLD])
  {
    hide Synced, FullTodo, Agrees, RowsOf, T.Embedded, T.NoCollision, T.NoTwins;
    EditIsTorn();
    EditTexts();
    OneRow(NEW.entry, 2);
    OneRow(OLD.entry, 2);
    OneDoc(NEW);
    OneDoc(OLD);
    var rows, torn := SavedRows(EDITED, 1), SavedRows(HALF, 1);
    T.TornStageIsRepaired(HALF.entries, rows, torn, [NEW], EDIT_TEXTS, LengthHash, LengthVector);
    T.TornStageIsRepaired(HALF.entries, rows, torn, [OLD], EDIT_TEXTS, LengthHash, LengthVector);
    assert [OLD][0] == OLD && HALF.entries[0] == OLD.entry && rows[0].entry.hash == 2;
  }
}
