/** The mutable state of main.py's Tonnetz player and the handlers that
    update it in place: the selection (`selected_shapes`), the chord window
    (`note_times`), the notes sounding (`active_notes`), the last chord and
    the hold mode. The canvas colouring those handlers also do is not
    modelled; each method states the new state through the functions of
    module Tonnetz. */
module TonnetzPlayer {
  import opened Common
  import opened Notes
  import opened Lattice
  import opened Tonnetz
  import Arpeggiator

  class Player {
    /** `circle_ids` and `triangle_ids`, fixed once the grid is drawn. */
    const board: Board
    var selectedShapes: map<int, ShapeKind>
    var noteTimes: map<string, real>
    var activeNotes: seq<int>
    var lastChord: seq<string>
    var holdOn: bool
    var movingTriangle: bool

    /** The tables are dictionaries and every selected shape is in the
        table of its kind. */
    ghost predicate Valid()
      reads this
    {
      WellFormed(board) && Consistent(board, selectedShapes)
    }

    /** The state main.py starts with: nothing selected, sounding or held. */
    constructor (b: Board)
      requires WellFormed(b)
      ensures Valid()
      ensures board == b
      ensures selectedShapes == map[] && noteTimes == map[] && activeNotes == [] && lastChord == []
      ensures !holdOn && !movingTriangle
    {
      board := b;
      selectedShapes := map[];
      noteTimes := map[];
      activeNotes := [];
      lastChord := [];
      holdOn := false;
      movingTriangle := false;
    }

    /** `mark_notes`: select every circle carrying the note. */
    method MarkNotes(note: string)
      modifies this`selectedShapes
      ensures selectedShapes == MarkedNotes(board, old(selectedShapes), note)
    {
      ghost var m := selectedShapes;
      var i := 0;
      while i < |board.circles|
        invariant 0 <= i <= |board.circles|
        invariant selectedShapes == AddAbsent(m, CirclesWith(board.circles[..i], {note}), CircleShape)
      {
        var c := board.circles[i];
        CirclesWithSnoc(board.circles, i, {note});
        if c.note == note && c.id !in selectedShapes {
          selectedShapes := selectedShapes[c.id := CircleShape];
        }
        i := i + 1;
      }
      assert board.circles[..i] == board.circles;
    }

    /** `unmark_notes`: clear every circle carrying the note. */
    method UnmarkNotes(note: string)
      modifies this`selectedShapes
      ensures selectedShapes == UnmarkedNotes(board, old(selectedShapes), note)
    {
      ghost var m := selectedShapes;
      var i := 0;
      while i < |board.circles|
        invariant 0 <= i <= |board.circles|
        invariant selectedShapes == m - CirclesWith(board.circles[..i], {note})
      {
        var c := board.circles[i];
        CirclesWithSnoc(board.circles, i, {note});
        if c.note == note && c.id in selectedShapes {
          selectedShapes := selectedShapes - {c.id};
        }
        i := i + 1;
      }
      assert board.circles[..i] == board.circles;
    }

    /** The `for note in notes: mark_notes(note)` loop of mark_triangles. */
    method MarkCircles(notes: seq<string>)
      modifies this`selectedShapes
      ensures selectedShapes == AddAbsent(old(selectedShapes), CirclesWith(board.circles, SetOf(notes)), CircleShape)
    {
      ghost var m := selectedShapes;
      var j := 0;
      while j < |notes|
        invariant 0 <= j <= |notes|
        invariant selectedShapes == AddAbsent(m, CirclesWith(board.circles, SetOf(notes[..j])), CircleShape)
      {
        assert notes[..j + 1] == notes[..j] + [notes[j]];
        SetOfAppend(notes[..j], notes[j]);
        CirclesWithUnion(board.circles, SetOf(notes[..j]), {notes[j]});
        AddAbsentTwice(m, CirclesWith(board.circles, SetOf(notes[..j])), CirclesWith(board.circles, {notes[j]}), CircleShape);
        MarkNotes(notes[j]);
        j := j + 1;
      }
      assert notes[..j] == notes;
    }

    /** The `for note in notes: unmark_notes(note)` loop of unmark_triangles. */
    method UnmarkCircles(notes: seq<string>)
      modifies this`selectedShapes
      ensures selectedShapes == old(selectedShapes) - CirclesWith(board.circles, SetOf(notes))
    {
      ghost var m := selectedShapes;
      var j := 0;
      while j < |notes|
        invariant 0 <= j <= |notes|
        invariant selectedShapes == m - CirclesWith(board.circles, SetOf(notes[..j]))
      {
        assert notes[..j + 1] == notes[..j] + [notes[j]];
        SetOfAppend(notes[..j], notes[j]);
        CirclesWithUnion(board.circles, SetOf(notes[..j]), {notes[j]});
        UnmarkNotes(notes[j]);
        j := j + 1;
      }
      assert notes[..j] == notes;
    }
 
    /** `mark_triangles(notes)`: select every triangle whose notes include
        all of `notes`, and the circles of `notes` when there is one. */
    method MarkTriangles(notes: seq<string>)
      requires WellFormed(board)
      modifies this`selectedShapes
      ensures selectedShapes == MarkedTriangles(board, old(selectedShapes), SetOf(notes))
    {
      ghost var m := selectedShapes;
      var i := 0;
      while i < |board.triangles|
        invariant 0 <= i <= |board.triangles|
        invariant selectedShapes == MarkedPrefix(board, m, SetOf(notes), i)
      {
        var t := board.triangles[i];
        if SetOf(notes) <= SetOf(t.notes) {
          ghost var before := selectedShapes;
          if t.id !in selectedShapes {
            selectedShapes := selectedShapes[t.id := TriangleShape];
          }
          assert selectedShapes == if t.id in before then before else before[t.id := TriangleShape];
          MarkCircles(notes);
        }
        i := i + 1;
      }
      MarkedPrefixAll(board, m, SetOf(notes));
    }

    /** `unmark_triangles(notes)`: clear every triangle whose notes lie
        within `notes`, and the circles of `notes` when there is one;
        `last_chord` becomes the notes of the last selected triangle it
        cleared. */
    method UnmarkTriangles(notes: seq<string>)
      requires WellFormed(board)
      modifies this`selectedShapes, this`lastChord
      ensures selectedShapes == UnmarkedTriangles(board, old(selectedShapes), SetOf(notes))
      ensures lastChord == ChordAfterUnmark(board.triangles, old(selectedShapes), SetOf(notes), old(lastChord))
    {
      ghost var m := selectedShapes;
      ghost var chord := lastChord;
      var i := 0;
      while i < |board.triangles|
        invariant 0 <= i <= |board.triangles|
        invariant selectedShapes == UnmarkedPrefix(board, m, SetOf(notes), i)
        invariant lastChord == ChordAfterUnmark(board.triangles[..i], m, SetOf(notes), chord)
      {
        var t := board.triangles[i];
        ghost var before := selectedShapes;
        UnmarkedPrefixClosed(board, m, SetOf(notes), i);
        UnmarkedUpToStep(board, m, SetOf(notes), i);
        assert SetOf(t.notes) <= SetOf(notes) ==> (t.id in before <==> t.id in m);
        ChordAfterUnmarkSnoc(board.triangles, i, m, SetOf(notes), chord);
        if SetOf(t.notes) <= SetOf(notes) {
          if t.id in selectedShapes {
            selectedShapes := selectedShapes - {t.id};
            lastChord := t.notes;
          }
          assert selectedShapes == if t.id in before then before - {t.id} else before;
          UnmarkCircles(notes);
        }
        assert selectedShapes == UnmarkTurn(board, before, SetOf(notes), t);
        i := i + 1;
      }
      UnmarkedPrefixAll(board, m, SetOf(notes));
      assert board.triangles[..i] == board.triangles;
    }
 
    /** `handle_triangle_click(notes)`: clear the previous chord when it is
        a different set of notes, select the clicked one and remember it. */
    method HandleTriangleClick(notes: seq<string>)
      requires Valid()
      modifies this`selectedShapes, this`lastChord
      ensures Valid()
      ensures lastChord == notes
      ensures selectedShapes == MarkedTriangles(board,
        if old(lastChord) != [] && SetOf(notes) != SetOf(old(lastChord))
        then UnmarkedTriangles(board, old(selectedShapes), SetOf(old(lastChord)))
        else old(selectedShapes),
        SetOf(notes))
    {
      if lastChord != [] && SetOf(notes) != SetOf(lastChord) {
        MarkingKeepsConsistent(board, selectedShapes, "", SetOf(lastChord));
        UnmarkTriangles(lastChord);
      }
      MarkingKeepsConsistent(board, selectedShapes, "", SetOf(notes));
      MarkTriangles(notes);
      lastChord := notes;
    }

    /** `handle_triangle_unclick(notes)`: release the chord unless hold mode
        keeps it. */
    method HandleTriangleUnclick(notes: seq<string>)
      requires Valid()
      modifies this`selectedShapes, this`lastChord
      ensures Valid()
      ensures holdOn ==> selectedShapes == old(selectedShapes) && lastChord == old(lastChord)
      ensures !holdOn ==> selectedShapes == UnmarkedTriangles(board, old(selectedShapes), SetOf(notes))
      ensures !holdOn ==> lastChord == ChordAfterUnmark(board.triangles, old(selectedShapes), SetOf(notes), old(lastChord))
    {
      if !holdOn {
        MarkingKeepsConsistent(board, selectedShapes, "", SetOf(notes));
        UnmarkTriangles(notes);
      }
    }

    /** `simulated_note_on`: the note starts sounding. */
    method SimulatedNoteOn(note: int)
      modifies this`activeNotes
      ensures activeNotes == old(activeNotes) + [note]
    {
      activeNotes := activeNotes + [note];
    }

    /** `simulated_note_off`: one occurrence of the note stops sounding; a
        note that is not sounding is ignored. */
    method SimulatedNoteOff(note: int)
      modifies this`activeNotes
      ensures note in old(activeNotes) ==> activeNotes == RemoveFirst(old(activeNotes), note)
      ensures note !in old(activeNotes) ==> activeNotes == old(activeNotes)
    {
      if note in activeNotes {
        activeNotes := RemoveFirst(activeNotes, note);
      }
    }

    /** `stop_midi(port, control)`. Without a port every sounding note gets
        a simulated note-off while the same list is iterated (so the
        iteration skips notes), then the list is cleared. With a port, one
        message per sounding note is sent and the list is cleared, unless
        the port cannot be opened (`openFails`), which leaves everything as
        it was. */
    method StopMidi(port: string, control: bool, openFails: bool) returns (sent: seq<MidiMessage>)
      modifies this`activeNotes
      ensures sent == StopSent(port, old(activeNotes), control, openFails)
      ensures activeNotes == StopRemaining(port, old(activeNotes), openFails)
    {
      if NoPort(port) {
        // `offs` are the notes given a simulated note-off so far: every
        // sounding note is either still listed or among them.
        ghost var offs: seq<int> := [];
        var i := 0;
        while i < |activeNotes|
          invariant 0 <= i
          invariant multiset(activeNotes) + multiset(offs) == multiset(old(activeNotes))
          decreases |activeNotes| - i
        {
          var note := activeNotes[i];
          SimulatedNoteOff(note);
          offs := offs + [note];
          i := i + 1;
        }
        activeNotes := [];
        return [];
      }
      if openFails {
        return [];
      }
      sent := [];
      if port != "" && activeNotes != [] {
        var i := 0;
        while i < |activeNotes|
          invariant 0 <= i <= |activeNotes|
          invariant sent == StopMessages(activeNotes[..i], control)
        {
          var msg := if control then AllNotesOff else NoteOff(activeNotes[i]);
          sent := sent + [msg];
          i := i + 1;
        }
        assert activeNotes[..i] == activeNotes;
      }
      activeNotes := [];
    }

    /** `unmark_shapes`: when anything is selected, clear each selected
        shape, send all-notes-off, and leave nothing selected or sounding;
        with nothing selected it does nothing. */
    method UnmarkShapes(port: string, openFails: bool) returns (sent: seq<MidiMessage>)
      requires Valid()
      modifies this`selectedShapes, this`activeNotes
      ensures Valid()
      ensures old(selectedShapes) != map[] ==>
        selectedShapes == map[] && activeNotes == [] && sent == StopSent(port, old(activeNotes), true, openFails)
      ensures old(selectedShapes) == map[] ==>
        selectedShapes == map[] && activeNotes == old(activeNotes) && sent == []
    {
      sent := [];
      if selectedShapes != map[] {
        var pending := selectedShapes.Keys;
        while pending != {}
          invariant selectedShapes.Keys == pending
          invariant activeNotes == old(activeNotes)
          decreases pending
        {
          var id := Pick(pending);
          selectedShapes := selectedShapes - {id};
          pending := pending - {id};
        }
        sent := StopMidi(port, true, openFails);
        selectedShapes := map[];
        activeNotes := [];
      }
    }

    /** `toggle_hold_mode`: flip hold mode; turning it off sends
        all-notes-off. */
    method ToggleHold(port: string, openFails: bool) returns (sent: seq<MidiMessage>)
      modifies this`holdOn, this`activeNotes
      ensures holdOn == !old(holdOn)
      ensures holdOn ==> sent == [] && activeNotes == old(activeNotes)
      ensures !holdOn ==> sent == StopSent(port, old(activeNotes), true, openFails) &&
                          activeNotes == StopRemaining(port, old(activeNotes), openFails)
    {
      holdOn := !holdOn;
      sent := [];
      if !holdOn {
        sent := StopMidi(port, true, openFails);
      }
    }
 
    /** The loop of `detect_chord` over the window: keep the entries
        within the chord interval of `now`, deleting the others, and list
        the kept notes. */
    method ExpireWindow(now: real) returns (chordNotes: seq<string>)
      modifies this`noteTimes
      ensures noteTimes == Expire(old(noteTimes), now)
      ensures SetOf(chordNotes) == noteTimes.Keys
      ensures Distinct(chordNotes)
    {
      ghost var window := noteTimes;
      chordNotes := [];
      var pending := noteTimes.Keys;
      while pending != {}
        invariant pending <= window.Keys
        invariant noteTimes == map k | k in window && (k in pending || now - window[k] <= MaxChordInterval) :: window[k]
        invariant SetOf(chordNotes) == set k | k in window && k !in pending && now - window[k] <= MaxChordInterval
        invariant Distinct(chordNotes)
        invariant forall k :: k in chordNotes ==> k !in pending
        decreases pending
      {
        var k := Pick(pending);
        if now - noteTimes[k] <= MaxChordInterval {
          SetOfAppend(chordNotes, k);
          chordNotes := chordNotes + [k];
        } else {
          noteTimes := noteTimes - {k};
        }
        pending := pending - {k};
      }
    }

    /** The window update of `detect_chord` in the corrected order (see
        ChordWindowFixed): expire old entries, then record the note if it
        has no entry; the result lists the notes left in the window. */
    method UpdateWindow(note: string, now: real) returns (chordNotes: seq<string>)
      modifies this`noteTimes
      ensures noteTimes == ChordWindowFixed(old(noteTimes), note, now)
      ensures SetOf(chordNotes) == noteTimes.Keys
      ensures |chordNotes| == |noteTimes|
    {
      chordNotes := ExpireWindow(now);
      if note !in noteTimes {
        assert note !in SetOf(chordNotes);
        DistinctAppend(chordNotes, note);
        SetOfAppend(chordNotes, note);
        noteTimes := noteTimes[note := now];
        chordNotes := chordNotes + [note];
      }
      DistinctCard(chordNotes);
    }

    /** `detect_chord(note)` at time `now`, with the window updated in the
        corrected order: when at least three notes are in the window, mark
        the triangles over them, and answer whether a chord is now
        selected. */
    method DetectChord(note: string, now: real) returns (chord: bool)
      requires Valid()
      modifies this`noteTimes, this`selectedShapes
      ensures Valid()
      ensures noteTimes == ChordWindowFixed(old(noteTimes), note, now)
      ensures |noteTimes| >= 3 ==> selectedShapes == MarkedTriangles(board, old(selectedShapes), noteTimes.Keys)
      ensures |noteTimes| < 3 ==> selectedShapes == old(selectedShapes)
      ensures chord <==> |noteTimes| >= 3 && TriangleShape in selectedShapes.Values
    {
      var chordNotes := UpdateWindow(note, now);
      chord := false;
      if |chordNotes| >= 3 {
        MarkingKeepsConsistent(board, selectedShapes, "", SetOf(chordNotes));
        MarkTriangles(chordNotes);
        chord := TriangleShape in selectedShapes.Values;
      }
    }

    /** One move of `move_triangles`: release the old chord, select the
        new one. */
    method MoveOne(oldNotes: seq<string>, newNotes: seq<string>)
      requires Valid()
      modifies this`selectedShapes, this`lastChord
      ensures Valid()
      ensures selectedShapes == MarkedTriangles(board, UnmarkedTriangles(board, old(selectedShapes), SetOf(oldNotes)), SetOf(newNotes))
      ensures lastChord == ChordAfterUnmark(board.triangles, old(selectedShapes), SetOf(oldNotes), old(lastChord))
    {
      MarkingKeepsConsistent(board, selectedShapes, "", SetOf(oldNotes));
      UnmarkTriangles(oldNotes);
      MarkingKeepsConsistent(board, selectedShapes, "", SetOf(newNotes));
      MarkTriangles(newNotes);
    }

    /** `move_triangles`: for each move, release the old triangle's chord
        and select the new one's; outside hold mode the move is marked as
        in progress (the timer that later releases it is not modelled). */
    method MoveTriangles(moves: seq<Move>)
      requires Valid()
      requires forall mv :: mv in moves ==>
        TriangleNotes(board.triangles, mv.from).Some? && TriangleNotes(board.triangles, mv.to).Some?
      modifies this`selectedShapes, this`lastChord, this`movingTriangle
      ensures Valid()
      ensures selectedShapes == AfterMoves(board, old(selectedShapes), moves)
      ensures lastChord == LastChordAfterMoves(board, old(selectedShapes), moves, old(lastChord))
      ensures movingTriangle == (old(movingTriangle) || (moves != [] && !holdOn))
    {
      ghost var m := selectedShapes;
      var i := 0;
      while i < |moves|
        invariant 0 <= i <= |moves|
        invariant Valid()
        invariant selectedShapes == AfterMoves(board, m, moves[..i])
        invariant lastChord == LastChordAfterMoves(board, m, moves[..i], old(lastChord))
        invariant movingTriangle == (old(movingTriangle) || (i > 0 && !holdOn))
      {
        var mv := moves[i];
        assert mv in moves;
        AfterMovesSnoc(board, m, moves, i);
        LastChordAfterMovesSnoc(board, m, moves, i, old(lastChord));
        MoveOne(TriangleNotes(board.triangles, mv.from).value, TriangleNotes(board.triangles, mv.to).value);
        if !holdOn {
          movingTriangle := true;
        }
        i := i + 1;
      }
      assert moves[..i] == moves;
    }

    /** The first loop of `handle_key`: the ids, in table order, of the
        triangles showing the chord. */
    method ChordTriangleIds(chord: seq<string>) returns (ids: seq<int>)
      ensures ids == ChordTriangles(board.triangles, chord)
    {
      var ts := board.triangles;
      ids := [];
      var i := 0;
      while i < |ts|
        invariant 0 <= i <= |ts|
        invariant ids == ChordTriangles(ts[..i], chord)
      {
        assert ts[..i + 1][..i] == ts[..i];
        if SetOf(ts[i].notes) == SetOf(chord) {
          ids := ids + [ts[i].id];
        }
        i := i + 1;
      }
      assert ts[..i] == ts;
    }

    /** The second loop of `handle_key`: the moves for `key` from the ids
        that land on a triangle sharing at least two notes with the chord. */
    method NavigationMoves(chord: seq<string>, ids: seq<int>, key: Key) returns (moves: seq<Move>)
      ensures moves == Moves(board.triangles, chord, ids, key)
    {
      moves := [];
      var j := 0;
      while j < |ids|
        invariant 0 <= j <= |ids|
        invariant moves == Moves(board.triangles, chord, ids[..j], key)
      {
        assert ids[..j + 1][..j] == ids[..j];
        var next := NextId(ids[j], key);
        if next.Some? {
          var target := TriangleNotes(board.triangles, next.value);
          if target.Some? && |SetOf(chord) * SetOf(target.value)| >= 2 {
            moves := moves + [Move(ids[j], next.value)];
          }
        }
        j := j + 1;
      }
      assert ids[..j] == ids;
    }

    /** The navigation part of `handle_key`: every triangle showing the last
        chord moves one step in the key's direction when the target triangle
        shares at least two notes with the chord; the last chord becomes the
        notes of the last target. */
    method HandleKey(key: Key)
      requires Valid()
      modifies this`selectedShapes, this`lastChord, this`movingTriangle
      ensures Valid()
      ensures
        var moves := if old(lastChord) != []
          then Moves(board.triangles, old(lastChord), ChordTriangles(board.triangles, old(lastChord)), key)
          else [];
        && selectedShapes == AfterMoves(board, old(selectedShapes), moves)
        && lastChord == ChordAfterMoves(board.triangles, moves, old(lastChord))
        && movingTriangle == (old(movingTriangle) || (moves != [] && !holdOn))
    {
      var selectedIds := ChordTriangleIds(lastChord);
      if lastChord != [] {
        var chord := lastChord;
        var moves := NavigationMoves(chord, selectedIds, key);
        MovesSound(board.triangles, chord, selectedIds, key);
        MoveTriangles(moves);
        if moves != [] {
          lastChord := TriangleNotes(board.triangles, moves[|moves| - 1].to).value;
        }
      }
    }

    /** The `for shape_id, shape_type in selected_shapes.items()` search
        for the first shape of a kind, in the iteration order `order`;
        `|order|` when there is none. */
    method FindFirst(order: seq<int>, kind: ShapeKind) returns (i: int)
      ensures 0 <= i <= |order|
      ensures i == |order| <==> FirstOfKind(order, selectedShapes, kind).None?
      ensures i < |order| ==> FirstOfKind(order, selectedShapes, kind) == Some(order[i])
    {
      i := 0;
      while i < |order| && !(order[i] in selectedShapes && selectedShapes[order[i]] == kind)
        invariant 0 <= i <= |order|
        invariant forall j :: 0 <= j < i ==> !(order[j] in selectedShapes && selectedShapes[order[j]] == kind)
      {
        i := i + 1;
      }
    }

    /** The notes `get_midi_out` picks from a non-empty selection: those of
        the first selected triangle, or else that of the first circle. */
    method ChooseNotes(order: seq<int>) returns (notes: seq<int>)
      requires Valid()
      requires SetOf(order) == selectedShapes.Keys
      requires selectedShapes != map[]
      ensures notes == ChosenNotes(board, selectedShapes, order)
    {
      if TriangleShape in selectedShapes.Values {
        var i := FindFirst(order, TriangleShape);
        notes := Arpeggiator.ConvertNoteToMidi(TriangleNotes(board.triangles, order[i]).value);
      } else {
        assert order != [];
        assert order[0] in SetOf(order);
        assert selectedShapes[order[0]] in selectedShapes.Values;
        var i := FindFirst(order, CircleShape);
        notes := Arpeggiator.ConvertNoteToMidi([CircleNote(board.circles, order[i]).value]);
      }
    }

    /** One turn of the loop of `get_midi_out`. `order` is the iteration
        order of `selected_shapes` and `previous` the notes the loop played
        last; the results are the notes it remembers next, the messages sent
        and whether `play_midi` is called. */
    method GetMidiOutStep(order: seq<int>, previous: seq<int>, arpeggiatorActive: bool,
                          port: string, openFails: bool)
      returns (next: seq<int>, sent: seq<MidiMessage>, play: bool)
      requires Valid()
      requires SetOf(order) == selectedShapes.Keys
      modifies this`activeNotes
      ensures Valid()
      ensures selectedShapes == map[] ==> !play && next == []
      ensures selectedShapes == map[] && previous == [] ==> sent == [] && activeNotes == old(activeNotes)
      ensures selectedShapes == map[] && previous != [] ==>
        sent == StopSent(port, old(activeNotes), true, openFails) &&
        activeNotes == StopRemaining(port, old(activeNotes), openFails)
      ensures selectedShapes != map[] ==>
        var chosen := ChosenNotes(board, selectedShapes, order);
        if SetOf(chosen) == SetOf(previous) then
          next == previous && sent == [] && !play && activeNotes == old(activeNotes)
        else
          next == chosen && activeNotes == chosen && play == !arpeggiatorActive &&
          sent == (if previous != [] then StopSent(port, old(activeNotes), false, openFails) else [])
    {
      next := previous;
      sent := [];
      play := false;
      if selectedShapes == map[] {
        if previous != [] {
          sent := StopMidi(port, true, openFails);
          next := [];
        }
        return;
      }
      var newNotes := ChooseNotes(order);
      if SetOf(newNotes) != SetOf(previous) {
        if previous != [] {
          sent := StopMidi(port, false, openFails);
        }
        activeNotes := newNotes;
        play := !arpeggiatorActive;
        next := newNotes;
      }
    }
  }
}
