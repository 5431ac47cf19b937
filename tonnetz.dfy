/** The value-level logic of main.py: note names from MIDI numbers, how the
    mark/unmark functions change the `selected_shapes` dictionary, the chord
    window of `detect_chord`, `list.remove` on `active_notes`, the messages
    `stop_midi` sends, tempo clamping and the triangle-id arithmetic of
    keyboard navigation. The mutable state that uses these lives in
    module Player. */
module Tonnetz {
  import opened Common
  import opened Notes
  import opened Lattice
  import Arpeggiator

  const Rows: int := 5
  const Columns: int := 14
  /** Seconds within which separate note-ons count as one chord. */
  const MaxChordInterval: real := 0.5
  const MinTempo: int := 20
  const MaxTempo: int := 180

  // ---------------------------------------------------------------------
  // convert_midi_to_note

  /** `convert_midi_to_note`: reduce modulo 12 onto the base octave and look
      the number up in the table, in the table's order. Python's `%` by a
      positive number is never negative, like Dafny's. */
  method ConvertMidiToNote(message: int) returns (name: string)
    ensures name in DictNotes
    ensures DictNotes[name] == message % 12 + BaseMidi
    ensures DictNotes[name] % 12 == message % 12
  {
    var midiNote := message % 12 + BaseMidi;
    var i := 0;
    NoteNamesIndexTable(midiNote - BaseMidi);
    while DictNotes[NoteNames[i]] != midiNote
      invariant 0 <= i <= midiNote - BaseMidi
      decreases midiNote - BaseMidi - i
    {
      NoteNamesIndexTable(i);
      i := i + 1;
    }
    NoteNamesIndexTable(i);
    name := NoteNames[i];
  }

  // ---------------------------------------------------------------------
  // selected_shapes

  /** Insert every id of `ids` with kind k, keeping the kind of ids already
      present (`if id not in d: d[id] = k`). */
  function AddAbsent(m: map<int, ShapeKind>, ids: set<int>, k: ShapeKind): (r: map<int, ShapeKind>)
    ensures r.Keys == m.Keys + ids
    ensures forall id :: id in m ==> r[id] == m[id]
    ensures forall id :: id in ids && id !in m ==> r[id] == k
  {
    map id | id in m.Keys + ids :: if id in m then m[id] else k
  }

  /** Ids of the circles whose note is one of `names`. */
  function CirclesWith(cs: seq<Circle>, names: set<string>): set<int>
  {
    set c | c in cs && c.note in names :: c.id
  }

  /** Ids of the triangles whose note set contains all of `names`. */
  function TrianglesOver(ts: seq<Triangle>, names: set<string>): set<int>
  {
    set t | t in ts && names <= SetOf(t.notes) :: t.id
  }

  /** Ids of the triangles whose note set lies within `names`. */
  function TrianglesWithin(ts: seq<Triangle>, names: set<string>): set<int>
  {
    set t | t in ts && SetOf(t.notes) <= names :: t.id
  }

  /** `selected_shapes` after `mark_notes(note)`. */
  function MarkedNotes(b: Board, m: map<int, ShapeKind>, note: string): map<int, ShapeKind>
  {
    AddAbsent(m, CirclesWith(b.circles, {note}), CircleShape)
  }

  /** `selected_shapes` after `unmark_notes(note)`. */
  function UnmarkedNotes(b: Board, m: map<int, ShapeKind>, note: string): map<int, ShapeKind>
  {
    m - CirclesWith(b.circles, {note})
  }

  /** `selected_shapes` after `mark_triangles(notes)` with set(notes) == names:
      every triangle over the names, then (if there was one) every circle of
      the names. */
  function MarkedTriangles(b: Board, m: map<int, ShapeKind>, names: set<string>): map<int, ShapeKind>
  {
    var over := TrianglesOver(b.triangles, names);
    if over == {} then m
    else AddAbsent(AddAbsent(m, over, TriangleShape), CirclesWith(b.circles, names), CircleShape)
  }

  /** `selected_shapes` after `unmark_triangles(notes)` with set(notes) ==
      names: every triangle within the names, then (if there was one) every
      circle of the names, is removed. */
  function UnmarkedTriangles(b: Board, m: map<int, ShapeKind>, names: set<string>): map<int, ShapeKind>
  {
    var within := TrianglesWithin(b.triangles, names);
    if within == {} then m else m - within - CirclesWith(b.circles, names)
  }

  /** `last_chord` after `unmark_triangles`: the notes of the last triangle,
      in table order, that lay within the names and was selected; otherwise
      the chord it had. */
  function ChordAfterUnmark(ts: seq<Triangle>, m: map<int, ShapeKind>, names: set<string>,
                            chord: seq<string>): seq<string>
  {
    if ts == [] then chord
    else
      var t := ts[|ts| - 1];
      if SetOf(t.notes) <= names && t.id in m then t.notes
      else ChordAfterUnmark(ts[..|ts| - 1], m, names, chord)
  }

  /** mark_notes selects every circle carrying the note, as "circle" unless
      it was already selected, and leaves every other entry as it was. */
  lemma MarkedNotesSelects(b: Board, m: map<int, ShapeKind>, note: string)
    ensures forall c :: c in b.circles && c.note == note ==>
      c.id in MarkedNotes(b, m, note) &&
      MarkedNotes(b, m, note)[c.id] == (if c.id in m then m[c.id] else CircleShape)
    ensures forall id :: id !in CirclesWith(b.circles, {note}) ==>
      (id in MarkedNotes(b, m, note) <==> id in m) &&
      (id in m ==> MarkedNotes(b, m, note)[id] == m[id])
  {
  }

  /** mark_notes twice is mark_notes once. */
  lemma MarkedNotesIdempotent(b: Board, m: map<int, ShapeKind>, note: string)
    ensures MarkedNotes(b, MarkedNotes(b, m, note), note) == MarkedNotes(b, m, note)
  {
  }

  /** unmark_notes removes every circle carrying the note and nothing else. */
  lemma UnmarkedNotesClears(b: Board, m: map<int, ShapeKind>, note: string)
    ensures forall c :: c in b.circles && c.note == note ==> c.id !in UnmarkedNotes(b, m, note)
    ensures forall id :: id in m && id !in CirclesWith(b.circles, {note}) ==>
      id in UnmarkedNotes(b, m, note) && UnmarkedNotes(b, m, note)[id] == m[id]
    ensures UnmarkedNotes(b, m, note).Keys <= m.Keys
  {
  }

  /** unmark_notes twice is unmark_notes once. */
  lemma UnmarkedNotesIdempotent(b: Board, m: map<int, ShapeKind>, note: string)
    ensures UnmarkedNotes(b, UnmarkedNotes(b, m, note), note) == UnmarkedNotes(b, m, note)
  {
  }

  /** Releasing a note undoes pressing it: the selection is as if the note
      had only been released, and unchanged if none of its circles was
      selected before. */
  lemma UnmarkUndoesMark(b: Board, m: map<int, ShapeKind>, note: string)
    ensures UnmarkedNotes(b, MarkedNotes(b, m, note), note) == UnmarkedNotes(b, m, note)
    ensures m.Keys !! CirclesWith(b.circles, {note}) ==>
      UnmarkedNotes(b, MarkedNotes(b, m, note), note) == m
  {
  }

  /** mark_triangles selects every triangle whose notes include the names
      (as "triangle" unless already selected) and, when there is one, every
      circle of the names; when there is none it changes nothing. */
  lemma MarkedTrianglesSelects(b: Board, m: map<int, ShapeKind>, names: set<string>)
    requires WellFormed(b)
    ensures forall t :: t in b.triangles && names <= SetOf(t.notes) ==>
      t.id in MarkedTriangles(b, m, names) &&
      MarkedTriangles(b, m, names)[t.id] == (if t.id in m then m[t.id] else TriangleShape)
    ensures TrianglesOver(b.triangles, names) != {} ==>
      forall c :: c in b.circles && c.note in names ==> c.id in MarkedTriangles(b, m, names)
    ensures TrianglesOver(b.triangles, names) == {} ==> MarkedTriangles(b, m, names) == m
    ensures forall id :: id in m ==> id in MarkedTriangles(b, m, names) && MarkedTriangles(b, m, names)[id] == m[id]
    ensures forall id :: id in MarkedTriangles(b, m, names) ==>
      id in m || id in TrianglesOver(b.triangles, names) || id in CirclesWith(b.circles, names)
    ensures TrianglesOver(b.triangles, names) != {} ==>
      forall c :: c in b.circles && c.note in names && c.id !in m ==> MarkedTriangles(b, m, names)[c.id] == CircleShape
  {
    forall t | t in b.triangles
      ensures t.id !in CirclesWith(b.circles, names)
    {
      var j :| 0 <= j < |b.triangles| && b.triangles[j] == t;
      forall c | c in b.circles
        ensures c.id != t.id
      {
        var i :| 0 <= i < |b.circles| && b.circles[i] == c;
      }
    }
  }

  /** unmark_triangles removes every triangle whose notes lie within the
      names and, when there is one, every circle of the names; every other
      entry stays as it was. */
  lemma UnmarkedTrianglesClears(b: Board, m: map<int, ShapeKind>, names: set<string>)
    ensures forall t :: t in b.triangles && SetOf(t.notes) <= names ==>
      t.id !in UnmarkedTriangles(b, m, names)
    ensures TrianglesWithin(b.triangles, names) != {} ==>
      forall c :: c in b.circles && c.note in names ==> c.id !in UnmarkedTriangles(b, m, names)
    ensures forall id :: id in UnmarkedTriangles(b, m, names) ==>
      id in m && UnmarkedTriangles(b, m, names)[id] == m[id]
    ensures forall id ::
      && id in m
      && id !in TrianglesWithin(b.triangles, names)
      && (TrianglesWithin(b.triangles, names) == {} || id !in CirclesWith(b.circles, names))
      ==> id in UnmarkedTriangles(b, m, names)
  {
  }

  // ---------------------------------------------------------------------
  // detect_chord's window over note_times

  /** Drop every entry older than the chord interval. */
  function Expire(times: map<string, real>, now: real): map<string, real>
  {
    map k | k in times && now - times[k] <= MaxChordInterval :: times[k]
  }

  /** `note_times` after `detect_chord(note)` at time `now`, as written:
      record the note only if it has no entry, then expire old entries. */
  function ChordWindow(times: map<string, real>, note: string, now: real): map<string, real>
  {
    Expire(if note in times then times else times[note := now], now)
  }

  /** The window keeps a note's first time, holds exactly the entries that
      are not too old plus the note when it is new, and always holds a note
      seen for the first time. */
  lemma ChordWindowContents(times: map<string, real>, note: string, now: real)
    ensures forall k :: k in ChordWindow(times, note, now) <==>
      (k in times && now - times[k] <= MaxChordInterval) || (k == note && note !in times)
    ensures forall k :: k in ChordWindow(times, note, now) ==>
      ChordWindow(times, note, now)[k] == (if k in times then times[k] else now)
    ensures note !in times ==> note in ChordWindow(times, note, now)
  {
  }

  /** The evidently intended window: expire old entries first, then record
      the note if it has no entry, so that a note pressed again after its
      entry expired is timed anew. */
  function ChordWindowFixed(times: map<string, real>, note: string, now: real): map<string, real>
  {
    var live := Expire(times, now);
    if note in live then live else live[note := now]
  }

  /** With the fixed order the note just played is always in the window,
      every entry is within the interval of `now` (times are never in the
      future), and the result differs from the written one only when the
      note's own entry had expired. */
  lemma ChordWindowFixedKeepsNote(times: map<string, real>, note: string, now: real)
    requires forall k :: k in times ==> times[k] <= now
    ensures ChordWindowFixed(times, note, now).Keys == Expire(times, now).Keys + {note}
    ensures forall k :: k in ChordWindowFixed(times, note, now) ==>
      0.0 <= now - ChordWindowFixed(times, note, now)[k] <= MaxChordInterval
    ensures note !in times || now - times[note] <= MaxChordInterval ==>
      ChordWindowFixed(times, note, now) == ChordWindow(times, note, now)
  {
  }

  /** As written, a chord played twice a second apart is not detected the
      second time: pressing C again finds C's old entry, does not renew it,
      and then expires it with E and G, so the second C, E, G leave only E
      and G in the window. */
  lemma RepeatedChordMissed()
    ensures var first := ChordWindow(ChordWindow(ChordWindow(map[], "C", 0.0), "E", 0.0), "G", 0.0);
      first.Keys == {"C", "E", "G"} &&
      var second := ChordWindow(ChordWindow(ChordWindow(first, "C", 1.0), "E", 1.0), "G", 1.0);
      second.Keys == {"E", "G"}
  {
    var w1 := ChordWindow(map[], "C", 0.0);
    assert w1 == map["C" := 0.0];
    var w2 := ChordWindow(w1, "E", 0.0);
    assert w2 == map["C" := 0.0, "E" := 0.0];
    var w3 := ChordWindow(w2, "G", 0.0);
    assert w3 == map["C" := 0.0, "E" := 0.0, "G" := 0.0];
    var v1 := ChordWindow(w3, "C", 1.0);
    assert v1 == map[];
    var v2 := ChordWindow(v1, "E", 1.0);
    assert v2 == map["E" := 1.0];
    var v3 := ChordWindow(v2, "G", 1.0);
    assert v3 == map["E" := 1.0, "G" := 1.0];
  }

  /** With the fixed order the same presses leave all three notes, timed
      anew, in the window. */
  lemma RepeatedChordFound()
    ensures var first := ChordWindowFixed(ChordWindowFixed(ChordWindowFixed(map[], "C", 0.0), "E", 0.0), "G", 0.0);
      var second := ChordWindowFixed(ChordWindowFixed(ChordWindowFixed(first, "C", 1.0), "E", 1.0), "G", 1.0);
      second == map["C" := 1.0, "E" := 1.0, "G" := 1.0]
  {
    var f1 := ChordWindowFixed(map[], "C", 0.0);
    assert f1 == map["C" := 0.0];
    var f2 := ChordWindowFixed(f1, "E", 0.0);
    assert f2 == map["C" := 0.0, "E" := 0.0];
    var f3 := ChordWindowFixed(f2, "G", 0.0);
    assert f3 == map["C" := 0.0, "E" := 0.0, "G" := 0.0];
    var g1 := ChordWindowFixed(f3, "C", 1.0);
    assert g1 == map["C" := 1.0];
    var g2 := ChordWindowFixed(g1, "E", 1.0);
    assert g2 == map["C" := 1.0, "E" := 1.0];
  }

  // ---------------------------------------------------------------------
  // Consistency of selected_shapes with the tables

  /** Every selected id has an entry of its kind in the tables, so the
      lookups `triangle_ids[id]` and `circle_ids[id]` of a selected shape
      succeed. */
  ghost predicate Consistent(b: Board, m: map<int, ShapeKind>)
  {
    forall id :: id in m ==>
      (m[id] == TriangleShape ==> TriangleNotes(b.triangles, id).Some?) &&
      (m[id] == CircleShape ==> CircleNote(b.circles, id).Some?)
  }

  /** The mark and unmark functions only ever select table entries of the
      right kind, so they keep the selection consistent. */
  lemma MarkingKeepsConsistent(b: Board, m: map<int, ShapeKind>, note: string, names: set<string>)
    requires Consistent(b, m)
    ensures Consistent(b, MarkedNotes(b, m, note))
    ensures Consistent(b, UnmarkedNotes(b, m, note))
    ensures Consistent(b, MarkedTriangles(b, m, names))
    ensures Consistent(b, UnmarkedTriangles(b, m, names))
  {
  }

  // ---------------------------------------------------------------------
  // Steps of the loops over the tables

  lemma CirclesWithSnoc(cs: seq<Circle>, i: int, names: set<string>)
    requires 0 <= i < |cs|
    ensures CirclesWith(cs[..i + 1], names) ==
      CirclesWith(cs[..i], names) + (if cs[i].note in names then {cs[i].id} else {})
  {
    assert cs[..i + 1] == cs[..i] + [cs[i]];
  }

  lemma TrianglesOverSnoc(ts: seq<Triangle>, i: int, names: set<string>)
    requires 0 <= i < |ts|
    ensures TrianglesOver(ts[..i + 1], names) ==
      TrianglesOver(ts[..i], names) + (if names <= SetOf(ts[i].notes) then {ts[i].id} else {})
  {
    assert ts[..i + 1] == ts[..i] + [ts[i]];
  }

  lemma TrianglesWithinSnoc(ts: seq<Triangle>, i: int, names: set<string>)
    requires 0 <= i < |ts|
    ensures TrianglesWithin(ts[..i + 1], names) ==
      TrianglesWithin(ts[..i], names) + (if SetOf(ts[i].notes) <= names then {ts[i].id} else {})
  {
    assert ts[..i + 1] == ts[..i] + [ts[i]];
  }

  lemma CirclesWithUnion(cs: seq<Circle>, A: set<string>, B: set<string>)
    ensures CirclesWith(cs, A + B) == CirclesWith(cs, A) + CirclesWith(cs, B)
  {
  }

  /** Adding the ids of A and then those of B with one kind is adding A + B. */
  lemma AddAbsentTwice(m: map<int, ShapeKind>, A: set<int>, B: set<int>, k: ShapeKind)
    ensures AddAbsent(AddAbsent(m, A, k), B, k) == AddAbsent(m, A + B, k)
  {
  }

  /** No triangle id is a circle id in a well-formed board. */
  lemma TriangleNotCircle(b: Board, t: Triangle, names: set<string>)
    requires WellFormed(b)
    requires t in b.triangles
    ensures t.id !in CirclesWith(b.circles, names)
  {
    var j :| 0 <= j < |b.triangles| && b.triangles[j] == t;
    forall c | c in b.circles
      ensures c.id != t.id
    {
      var i :| 0 <= i < |b.circles| && b.circles[i] == c;
    }
  }

  /** In a well-formed board a triangle's id is not among those of the
      triangles before it. */
  lemma LaterTriangleFresh(b: Board, i: int, names: set<string>)
    requires WellFormed(b)
    requires 0 <= i < |b.triangles|
    ensures b.triangles[i].id !in TrianglesWithin(b.triangles[..i], names)
  {
    forall u | u in b.triangles[..i]
      ensures u.id != b.triangles[i].id
    {
      var k :| 0 <= k < i && b.triangles[..i][k] == u;
    }
  }

  /** One turn of mark_triangles' loop over a triangle whose notes include
      the names: select it as "triangle" if absent, then mark the circles of
      the names. */
  lemma MarkStep(m: map<int, ShapeKind>, over: set<int>, tid: int, circles: set<int>)
    requires tid !in circles
    ensures
      var s := if over == {} then m else AddAbsent(AddAbsent(m, over, TriangleShape), circles, CircleShape);
      var s1 := if tid in s then s else s[tid := TriangleShape];
      AddAbsent(s1, circles, CircleShape) ==
        AddAbsent(AddAbsent(m, over + {tid}, TriangleShape), circles, CircleShape)
  {
    var s := if over == {} then m else AddAbsent(AddAbsent(m, over, TriangleShape), circles, CircleShape);
    var s1 := if tid in s then s else s[tid := TriangleShape];
    var lhs := AddAbsent(s1, circles, CircleShape);
    var rhs := AddAbsent(AddAbsent(m, over + {tid}, TriangleShape), circles, CircleShape);
    assert lhs.Keys == rhs.Keys;
    forall id | id in lhs
      ensures lhs[id] == rhs[id]
    {
    }
  }

  /** The closed form of `selected_shapes` after mark_triangles has
      visited the first i triangles. */
  function MarkedUpTo(b: Board, m: map<int, ShapeKind>, names: set<string>, i: int): map<int, ShapeKind>
    requires 0 <= i <= |b.triangles|
  {
    var over := TrianglesOver(b.triangles[..i], names);
    if over == {} then m
    else AddAbsent(AddAbsent(m, over, TriangleShape), CirclesWith(b.circles, names), CircleShape)
  }

  /** One turn of mark_triangles' loop on triangle t. */
  function MarkTurn(b: Board, s: map<int, ShapeKind>, names: set<string>, t: Triangle): map<int, ShapeKind>
  {
    if names <= SetOf(t.notes) then
      AddAbsent(if t.id in s then s else s[t.id := TriangleShape], CirclesWith(b.circles, names), CircleShape)
    else s
  }

  /** `selected_shapes` after mark_triangles has visited the first i
      triangles, turn by turn. */
  function MarkedPrefix(b: Board, m: map<int, ShapeKind>, names: set<string>, i: int): map<int, ShapeKind>
    requires 0 <= i <= |b.triangles|
  {
    if i == 0 then m else MarkTurn(b, MarkedPrefix(b, m, names, i - 1), names, b.triangles[i - 1])
  }

  lemma MarkedUpToStep(b: Board, m: map<int, ShapeKind>, names: set<string>, i: int)
    requires WellFormed(b)
    requires 0 <= i < |b.triangles|
    ensures MarkedUpTo(b, m, names, i + 1) == MarkTurn(b, MarkedUpTo(b, m, names, i), names, b.triangles[i])
  {
    var t := b.triangles[i];
    var over := TrianglesOver(b.triangles[..i], names);
    var circles := CirclesWith(b.circles, names);
    TrianglesOverSnoc(b.triangles, i, names);
    if names <= SetOf(t.notes) {
      TriangleNotCircle(b, t, names);
      assert TrianglesOver(b.triangles[..i + 1], names) == over + {t.id};
      MarkStep(m, over, t.id, circles);
    } else {
      assert TrianglesOver(b.triangles[..i + 1], names) == over;
    }
  }

  /** Turn by turn, mark_triangles computes MarkedTriangles. */
  lemma {:induction false} MarkedPrefixClosed(b: Board, m: map<int, ShapeKind>, names: set<string>, i: int)
    requires WellFormed(b)
    requires 0 <= i <= |b.triangles|
    ensures MarkedPrefix(b, m, names, i) == MarkedUpTo(b, m, names, i)
  {
    if i == 0 {
      assert b.triangles[..0] == [];
      assert MarkedUpTo(b, m, names, 0) == m;
    } else {
      MarkedPrefixClosed(b, m, names, i - 1);
      MarkedUpToStep(b, m, names, i - 1);
      assert MarkedPrefix(b, m, names, i) == MarkTurn(b, MarkedUpTo(b, m, names, i - 1), names, b.triangles[i - 1]);
    }
  }

  lemma MarkedPrefixAll(b: Board, m: map<int, ShapeKind>, names: set<string>)
    requires WellFormed(b)
    ensures MarkedPrefix(b, m, names, |b.triangles|) == MarkedTriangles(b, m, names)
  {
    MarkedPrefixClosed(b, m, names, |b.triangles|);
    assert b.triangles[..|b.triangles|] == b.triangles;
  }

  /** The closed form of `selected_shapes` after unmark_triangles has
      visited the first i triangles. */
  function UnmarkedUpTo(b: Board, m: map<int, ShapeKind>, names: set<string>, i: int): map<int, ShapeKind>
    requires 0 <= i <= |b.triangles|
  {
    var within := TrianglesWithin(b.triangles[..i], names);
    if within == {} then m else m - within - CirclesWith(b.circles, names)
  }

  /** One turn of unmark_triangles' loop on triangle t. */
  function UnmarkTurn(b: Board, s: map<int, ShapeKind>, names: set<string>, t: Triangle): map<int, ShapeKind>
  {
    if SetOf(t.notes) <= names then (if t.id in s then s - {t.id} else s) - CirclesWith(b.circles, names)
    else s
  }

  /** `selected_shapes` after unmark_triangles has visited the first i
      triangles, turn by turn. */
  function UnmarkedPrefix(b: Board, m: map<int, ShapeKind>, names: set<string>, i: int): map<int, ShapeKind>
    requires 0 <= i <= |b.triangles|
  {
    if i == 0 then m else UnmarkTurn(b, UnmarkedPrefix(b, m, names, i - 1), names, b.triangles[i - 1])
  }

  lemma UnmarkedUpToStep(b: Board, m: map<int, ShapeKind>, names: set<string>, i: int)
    requires WellFormed(b)
    requires 0 <= i < |b.triangles|
    ensures SetOf(b.triangles[i].notes) <= names ==>
      (b.triangles[i].id in UnmarkedUpTo(b, m, names, i) <==> b.triangles[i].id in m)
    ensures UnmarkedUpTo(b, m, names, i + 1) == UnmarkTurn(b, UnmarkedUpTo(b, m, names, i), names, b.triangles[i])
  {
    TrianglesWithinSnoc(b.triangles, i, names);
    if SetOf(b.triangles[i].notes) <= names {
      TriangleNotCircle(b, b.triangles[i], names);
      LaterTriangleFresh(b, i, names);
    }
  }

  /** Turn by turn, unmark_triangles computes UnmarkedTriangles, and a
      triangle it reaches is selected exactly when it was selected at the
      start. */
  lemma {:induction false} UnmarkedPrefixClosed(b: Board, m: map<int, ShapeKind>, names: set<string>, i: int)
    requires WellFormed(b)
    requires 0 <= i <= |b.triangles|
    ensures UnmarkedPrefix(b, m, names, i) == UnmarkedUpTo(b, m, names, i)
  {
    if i == 0 {
      assert b.triangles[..0] == [];
      assert UnmarkedUpTo(b, m, names, 0) == m;
    } else {
      UnmarkedPrefixClosed(b, m, names, i - 1);
      UnmarkedUpToStep(b, m, names, i - 1);
      assert UnmarkedPrefix(b, m, names, i) == UnmarkTurn(b, UnmarkedUpTo(b, m, names, i - 1), names, b.triangles[i - 1]);
    }
  }

  lemma UnmarkedPrefixAll(b: Board, m: map<int, ShapeKind>, names: set<string>)
    requires WellFormed(b)
    ensures UnmarkedPrefix(b, m, names, |b.triangles|) == UnmarkedTriangles(b, m, names)
  {
    UnmarkedPrefixClosed(b, m, names, |b.triangles|);
    assert b.triangles[..|b.triangles|] == b.triangles;
  }

  /** The last_chord that unmark_triangles leaves after the first i + 1
      triangles, in terms of the first i. */
  lemma ChordAfterUnmarkSnoc(ts: seq<Triangle>, i: int, m: map<int, ShapeKind>,
                             names: set<string>, chord: seq<string>)
    requires 0 <= i < |ts|
    ensures ChordAfterUnmark(ts[..i + 1], m, names, chord) ==
      if SetOf(ts[i].notes) <= names && ts[i].id in m then ts[i].notes
      else ChordAfterUnmark(ts[..i], m, names, chord)
  {
    assert ts[..i + 1][..i] == ts[..i];
  }

  // ---------------------------------------------------------------------
  // active_notes

  /** The position of the first occurrence of x in s. */
  function IndexOf(s: seq<int>, x: int): (i: nat)
    requires x in s
    ensures i < |s| && s[i] == x && x !in s[..i]
  {
    if s[0] == x then 0
    else
      var j := IndexOf(s[1..], x);
      assert s[..j + 1] == [s[0]] + s[1..][..j];
      j + 1
  }

  /** Python's `list.remove(x)` on a list that contains x: drop its first
      occurrence, keeping the order of the rest. */
  function RemoveFirst(s: seq<int>, x: int): (r: seq<int>)
    requires x in s
    ensures |r| == |s| - 1
    ensures multiset(r) == multiset(s) - multiset{x}
    ensures r[..IndexOf(s, x)] == s[..IndexOf(s, x)]
    ensures r[IndexOf(s, x)..] == s[IndexOf(s, x) + 1..]
  {
    var i := IndexOf(s, x);
    assert s == s[..i] + [x] + s[i + 1..];
    s[..i] + s[i + 1..]
  }

  /** A simulated note-on followed by a simulated note-off of the same note
      leaves the same notes sounding, and in the same order when the note
      was not sounding before. */
  lemma NoteOnThenOff(s: seq<int>, x: int)
    ensures x in s + [x]
    ensures multiset(RemoveFirst(s + [x], x)) == multiset(s)
    ensures x !in s ==> RemoveFirst(s + [x], x) == s
  {
    assert (s + [x])[|s|] == x;
    if x !in s {
      var i := IndexOf(s + [x], x);
      assert (s + [x])[..i] == s;
    }
  }

  // ---------------------------------------------------------------------
  // Messages stop_midi sends

  datatype MidiMessage = NoteOff(note: int) | ControlChange(channel: int, control: int, value: int)

  /** "All notes off" on channel 0: controller 123 with value 0. */
  const AllNotesOff: MidiMessage := ControlChange(0, 123, 0)

  /** One message per sounding note: all-notes-off when `control`, otherwise
      a note-off for that note. */
  function StopMessages(notes: seq<int>, control: bool): (r: seq<MidiMessage>)
    ensures |r| == |notes|
    ensures forall i :: 0 <= i < |r| ==> r[i] == if control then AllNotesOff else NoteOff(notes[i])
  {
    seq(|notes|, i requires 0 <= i < |notes| => if control then AllNotesOff else NoteOff(notes[i]))
  }

  // ---------------------------------------------------------------------
  // Tempo

  /** `increase_tempo`: one more beat per minute, up to 180. */
  function IncreaseTempo(t: int): (r: int)
    ensures t <= r <= t + 1
    ensures t <= MaxTempo ==> r <= MaxTempo
    ensures r == t <==> t >= MaxTempo
  {
    if t < MaxTempo then t + 1 else t
  }

  /** `decrease_tempo`: one fewer beat per minute, down to 20. */
  function DecreaseTempo(t: int): (r: int)
    ensures t - 1 <= r <= t
    ensures t >= MinTempo ==> r >= MinTempo
    ensures r == t <==> t <= MinTempo
  {
    if t > MinTempo then t - 1 else t
  }

  /** `validate_tempo`: clamp a typed tempo into 20..180. */
  function ValidateTempo(t: int): (r: int)
    ensures MinTempo <= r <= MaxTempo
    ensures MinTempo <= t <= MaxTempo ==> r == t
    ensures t < MinTempo ==> r == MinTempo
    ensures t > MaxTempo ==> r == MaxTempo
  {
    if t < MinTempo then MinTempo else if t > MaxTempo then MaxTempo else t
  }

  /** The buttons keep a tempo inside 20..180, each undoes the other away
      from the bounds, and validating is idempotent and has no effect on a
      tempo the buttons produced. */
  lemma TempoStaysInRange(t: int)
    requires MinTempo <= t <= MaxTempo
    ensures MinTempo <= IncreaseTempo(t) <= MaxTempo
    ensures MinTempo <= DecreaseTempo(t) <= MaxTempo
    ensures t < MaxTempo ==> DecreaseTempo(IncreaseTempo(t)) == t
    ensures t > MinTempo ==> IncreaseTempo(DecreaseTempo(t)) == t
    ensures ValidateTempo(IncreaseTempo(t)) == IncreaseTempo(t)
    ensures ValidateTempo(DecreaseTempo(t)) == DecreaseTempo(t)
  {
  }

  lemma ValidateTempoIdempotent(t: int)
    ensures ValidateTempo(ValidateTempo(t)) == ValidateTempo(t)
  {
  }

  // ---------------------------------------------------------------------
  // Navigation with the arrow keys (handle_key)

  datatype Key = Left | Right | Up | Down | OtherKey

  /** Number of triangle ids: they run over 1..70. */
  const TriangleCount: int := Columns * Rows

  /** The triangle id an arrow key moves `id` to, wrapping around the grid;
      None for any other key (the loop's `continue`). */
  function NextId(id: int, key: Key): (r: Option<int>)
    ensures r.None? <==> key == OtherKey
    ensures 1 <= id <= TriangleCount && r.Some? ==> 1 <= r.value <= TriangleCount
    ensures key == Left && id > 1 ==> r == Some(id - 1)
    ensures key == Right && id < TriangleCount ==> r == Some(id + 1)
    ensures key == Up && id - Columns >= 1 ==> r == Some(id - Columns)
    ensures key == Down && id + Columns <= TriangleCount ==> r == Some(id + Columns)
  {
    match key
    case Left => Some(if id > 1 then id - 1 else TriangleCount)
    case Right => Some(if id < TriangleCount then id + 1 else 1)
    case Up => Some(if id - Columns >= 1 then id - Columns else id + (Rows - 1) * Columns)
    case Down => Some(if id + Columns <= TriangleCount then id + Columns else id - (Rows - 1) * Columns)
    case OtherKey => None
  }

  /** Left undoes Right and Up undoes Down on every grid id, so each arrow
      is a bijection of 1..70. */
  lemma NextIdInverse(id: int)
    requires 1 <= id <= TriangleCount
    ensures NextId(NextId(id, Right).value, Left) == Some(id)
    ensures NextId(NextId(id, Left).value, Right) == Some(id)
    ensures NextId(NextId(id, Down).value, Up) == Some(id)
    ensures NextId(NextId(id, Up).value, Down) == Some(id)
  {
  }

  /** Wrap-around at the edges: past the first id is the last, past the
      top row is the bottom row. */
  lemma NextIdWraps()
    ensures NextId(1, Left) == Some(TriangleCount)
    ensures NextId(TriangleCount, Right) == Some(1)
    ensures forall id :: 1 <= id <= Columns ==> NextId(id, Up) == Some(id + (Rows - 1) * Columns)
    ensures forall id :: TriangleCount - Columns < id <= TriangleCount ==>
      NextId(id, Down) == Some(id - (Rows - 1) * Columns)
  {
  }

  /** The ids of the triangles, in table order, whose note set is the set
      of `chord` (handle_key's `selected_triangle_ids`). */
  function ChordTriangles(ts: seq<Triangle>, chord: seq<string>): (r: seq<int>)
    ensures forall id :: id in r <==> exists t :: t in ts && t.id == id && SetOf(t.notes) == SetOf(chord)
  {
    if ts == [] then []
    else
      var t := ts[|ts| - 1];
      var rest := ChordTriangles(ts[..|ts| - 1], chord);
      assert forall u :: u in ts <==> u in ts[..|ts| - 1] || u == t by {
        assert ts == ts[..|ts| - 1] + [t];
      }
      if SetOf(t.notes) == SetOf(chord) then rest + [t.id] else rest
  }

  /** A move to `target` is kept when the target is a triangle of the table
      sharing at least two notes with `chord`. */
  predicate Accepts(ts: seq<Triangle>, chord: seq<string>, target: int)
  {
    match TriangleNotes(ts, target)
    case None => false
    case Some(notes) => |SetOf(chord) * SetOf(notes)| >= 2
  }

  datatype Move = Move(from: int, to: int)

  /** The moves handle_key makes for `key`, in the order of `ids`. */
  function Moves(ts: seq<Triangle>, chord: seq<string>, ids: seq<int>, key: Key): seq<Move>
  {
    if ids == [] then []
    else
      var rest := Moves(ts, chord, ids[..|ids| - 1], key);
      var next := NextId(ids[|ids| - 1], key);
      if next.Some? && Accepts(ts, chord, next.value) then rest + [Move(ids[|ids| - 1], next.value)]
      else rest
  }

  /** Every move goes from one of the ids to that id's neighbour for the
      key, lands on a grid id when it starts on one, and lands on a triangle
      sharing at least two notes with the chord; and every id whose
      neighbour is accepted does move. */
  lemma {:induction false} MovesSound(ts: seq<Triangle>, chord: seq<string>, ids: seq<int>, key: Key)
    ensures forall mv :: mv in Moves(ts, chord, ids, key) ==>
      mv.from in ids && NextId(mv.from, key) == Some(mv.to) && Accepts(ts, chord, mv.to) &&
      (1 <= mv.from <= TriangleCount ==> 1 <= mv.to <= TriangleCount)
    ensures forall id :: id in ids && NextId(id, key).Some? && Accepts(ts, chord, NextId(id, key).value) ==>
      Move(id, NextId(id, key).value) in Moves(ts, chord, ids, key)
    ensures key == OtherKey ==> Moves(ts, chord, ids, key) == []
  {
    if ids != [] {
      var init := ids[..|ids| - 1];
      MovesSound(ts, chord, init, key);
      assert ids == init + [ids[|ids| - 1]];
    }
  }

  /** `last_chord` after handle_key made `moves`: the notes of the last
      target, or the old chord when nothing moved. */
  function ChordAfterMoves(ts: seq<Triangle>, moves: seq<Move>, chord: seq<string>): seq<string>
  {
    if moves == [] then chord
    else match TriangleNotes(ts, moves[|moves| - 1].to)
      case Some(notes) => notes
      case None => chord
  }

  /** `selected_shapes` after move_triangles: each move unmarks the old
      triangle's chord and marks the new one's. */
  function AfterMoves(b: Board, m: map<int, ShapeKind>, moves: seq<Move>): map<int, ShapeKind>
  {
    if moves == [] then m
    else
      var mv := moves[|moves| - 1];
      var before := AfterMoves(b, m, moves[..|moves| - 1]);
      match (TriangleNotes(b.triangles, mv.from), TriangleNotes(b.triangles, mv.to))
      case (Some(oldNotes), Some(newNotes)) =>
        MarkedTriangles(b, UnmarkedTriangles(b, before, SetOf(oldNotes)), SetOf(newNotes))
      case _ => before
  }

  lemma AfterMovesSnoc(b: Board, m: map<int, ShapeKind>, moves: seq<Move>, i: int)
    requires 0 <= i < |moves|
    requires TriangleNotes(b.triangles, moves[i].from).Some? && TriangleNotes(b.triangles, moves[i].to).Some?
    ensures AfterMoves(b, m, moves[..i + 1]) ==
      MarkedTriangles(b,
        UnmarkedTriangles(b, AfterMoves(b, m, moves[..i]), SetOf(TriangleNotes(b.triangles, moves[i].from).value)),
        SetOf(TriangleNotes(b.triangles, moves[i].to).value))
  {
    assert moves[..i + 1][..i] == moves[..i];
  }

  /** `last_chord` after move_triangles: each move's unmark_triangles of
      the old triangle's chord rewrites it as ChordAfterUnmark does, on the
      selection reached so far. */
  function LastChordAfterMoves(b: Board, m: map<int, ShapeKind>, moves: seq<Move>, chord: seq<string>): seq<string>
  {
    if moves == [] then chord
    else
      var mv := moves[|moves| - 1];
      var prev := moves[..|moves| - 1];
      var c := LastChordAfterMoves(b, m, prev, chord);
      match (TriangleNotes(b.triangles, mv.from), TriangleNotes(b.triangles, mv.to))
      case (Some(oldNotes), Some(_)) => ChordAfterUnmark(b.triangles, AfterMoves(b, m, prev), SetOf(oldNotes), c)
      case _ => c
  }

  lemma LastChordAfterMovesSnoc(b: Board, m: map<int, ShapeKind>, moves: seq<Move>, i: int, chord: seq<string>)
    requires 0 <= i < |moves|
    requires TriangleNotes(b.triangles, moves[i].from).Some? && TriangleNotes(b.triangles, moves[i].to).Some?
    ensures LastChordAfterMoves(b, m, moves[..i + 1], chord) ==
      ChordAfterUnmark(b.triangles, AfterMoves(b, m, moves[..i]),
        SetOf(TriangleNotes(b.triangles, moves[i].from).value), LastChordAfterMoves(b, m, moves[..i], chord))
  {
    assert moves[..i + 1][..i] == moves[..i];
  }

  /** unmark_triangles leaves `last_chord` as it was when it clears no
      selected triangle, and otherwise sets it to the notes of a selected
      triangle lying within the names. */
  lemma {:induction false} ChordAfterUnmarkFrom(ts: seq<Triangle>, m: map<int, ShapeKind>, names: set<string>,
                                                chord: seq<string>)
    ensures (forall t :: t in ts ==> !(SetOf(t.notes) <= names && t.id in m)) ==>
      ChordAfterUnmark(ts, m, names, chord) == chord
    ensures ChordAfterUnmark(ts, m, names, chord) == chord ||
      exists t :: t in ts && SetOf(t.notes) <= names && t.id in m && ChordAfterUnmark(ts, m, names, chord) == t.notes
    ensures forall i ::
      && 0 <= i < |ts|
      && SetOf(ts[i].notes) <= names && ts[i].id in m
      && (forall j :: i < j < |ts| ==> !(SetOf(ts[j].notes) <= names && ts[j].id in m))
      ==> ChordAfterUnmark(ts, m, names, chord) == ts[i].notes
  {
    if ts != [] {
      var t := ts[|ts| - 1];
      var init := ts[..|ts| - 1];
      assert forall u :: u in init ==> u in ts;
      assert forall k :: 0 <= k < |init| ==> init[k] == ts[k];
      assert t in ts;
      ChordAfterUnmarkFrom(init, m, names, chord);
    }
  }

  /** Moves between table triangles keep the selection consistent. */
  lemma {:induction false} AfterMovesKeepsConsistent(b: Board, m: map<int, ShapeKind>, moves: seq<Move>)
    requires Consistent(b, m)
    ensures Consistent(b, AfterMoves(b, m, moves))
  {
    if moves != [] {
      var mv := moves[|moves| - 1];
      var before := AfterMoves(b, m, moves[..|moves| - 1]);
      AfterMovesKeepsConsistent(b, m, moves[..|moves| - 1]);
      match (TriangleNotes(b.triangles, mv.from), TriangleNotes(b.triangles, mv.to))
      case (Some(oldNotes), Some(newNotes)) =>
        MarkingKeepsConsistent(b, before, "", SetOf(oldNotes));
        MarkingKeepsConsistent(b, UnmarkedTriangles(b, before, SetOf(oldNotes)), "", SetOf(newNotes));
      case _ =>
    }
  }

  // ---------------------------------------------------------------------
  // stop_midi's effect

  /** The port names under which the program simulates output instead of
      opening a MIDI port. */
  predicate NoPort(port: string)
  {
    port == "no-midi" || port == "No hay puertos MIDI"
  }

  /** What `stop_midi` sends: nothing when output is simulated, when the
      port cannot be opened or is unnamed; otherwise one message per
      sounding note. */
  function StopSent(port: string, notes: seq<int>, control: bool, openFails: bool): (r: seq<MidiMessage>)
    ensures r != [] ==> !NoPort(port) && !openFails && port != ""
    ensures !NoPort(port) && !openFails && port != "" ==> r == StopMessages(notes, control)
  {
    if NoPort(port) || openFails || port == "" then [] else StopMessages(notes, control)
  }

  /** The notes still sounding after `stop_midi`: all of them when the port
      could not be opened, none otherwise. */
  function StopRemaining(port: string, notes: seq<int>, openFails: bool): (r: seq<int>)
    ensures r == [] || r == notes
    ensures NoPort(port) || !openFails ==> r == []
    ensures !NoPort(port) && openFails ==> r == notes
  {
    if !NoPort(port) && openFails then notes else []
  }

  // ---------------------------------------------------------------------
  // One turn of get_midi_out

  /** The first id in the dictionary order `order` that is selected with
      kind k. */
  function FirstOfKind(order: seq<int>, m: map<int, ShapeKind>, k: ShapeKind): (r: Option<int>)
    ensures r.None? <==> forall i :: 0 <= i < |order| ==> !(order[i] in m && m[order[i]] == k)
    ensures r.Some? ==> exists i :: (0 <= i < |order| && order[i] == r.value && r.value in m && m[r.value] == k &&
      forall j :: 0 <= j < i ==> !(order[j] in m && m[order[j]] == k))
  {
    if order == [] then None
    else if order[0] in m && m[order[0]] == k then Some(order[0])
    else
      var r := FirstOfKind(order[1..], m, k);
      assert forall i :: 1 <= i < |order| ==> order[i] == order[1..][i - 1];
      r
  }

  /** The MIDI notes get_midi_out plays for a selection: those of the first
      selected triangle, or else that of the first selected circle. */
  function ChosenNotes(b: Board, m: map<int, ShapeKind>, order: seq<int>): seq<int>
  {
    match FirstOfKind(order, m, TriangleShape)
    case Some(id) =>
      (match TriangleNotes(b.triangles, id)
       case Some(notes) => Arpeggiator.KnownMidi(notes)
       case None => [])
    case None =>
      match FirstOfKind(order, m, CircleShape)
      case Some(id) =>
        (match CircleNote(b.circles, id)
         case Some(note) => Arpeggiator.KnownMidi([note])
         case None => [])
      case None => []
  }

  /** When a triangle is selected the chosen notes are those of a selected
      triangle; when only circles are, they are the note of a selected
      circle; with nothing selected there are none. Every chosen note is in
      the base octave. */
  lemma ChosenNotesFromSelection(b: Board, m: map<int, ShapeKind>, order: seq<int>)
    requires Consistent(b, m)
    requires SetOf(order) == m.Keys
    ensures TriangleShape in m.Values ==> exists id :: (id in m && m[id] == TriangleShape &&
      ChosenNotes(b, m, order) == Arpeggiator.KnownMidi(TriangleNotes(b.triangles, id).value))
    ensures TriangleShape !in m.Values && m != map[] ==> exists id :: (id in m && m[id] == CircleShape &&
      ChosenNotes(b, m, order) == Arpeggiator.KnownMidi([CircleNote(b.circles, id).value]))
    ensures m == map[] ==> ChosenNotes(b, m, order) == []
    ensures forall i :: 0 <= i < |ChosenNotes(b, m, order)| ==>
      BaseMidi <= ChosenNotes(b, m, order)[i] < BaseMidi + 12
  {
    var ft := FirstOfKind(order, m, TriangleShape);
    if TriangleShape in m.Values {
      var id :| id in m && m[id] == TriangleShape;
      assert id in SetOf(order);
      var i :| 0 <= i < |order| && order[i] == id;
      assert ft.Some?;
    } else if m != map[] {
      assert order != [];
      var id := order[0];
      assert id in SetOf(order);
      assert m[id] == CircleShape by {
        assert m[id] in m.Values;
      }
      assert id in SetOf(order);
      var i :| 0 <= i < |order| && order[i] == id;
      assert FirstOfKind(order, m, CircleShape).Some?;
    }
    if ft.Some? {
      var notes := TriangleNotes(b.triangles, ft.value);
      if notes.Some? {
        Arpeggiator.KnownMidiBounds(notes.value);
      }
    } else {
      var fc := FirstOfKind(order, m, CircleShape);
      if fc.Some? && CircleNote(b.circles, fc.value).Some? {
        Arpeggiator.KnownMidiBounds([CircleNote(b.circles, fc.value).value]);
      }
    }
  }
}
