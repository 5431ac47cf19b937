# Tonnetz player: selection, chord and arpeggio model

The Tonnetz player draws a grid of note circles and chord triangles. Clicking a triangle, or playing a chord on a MIDI keyboard, selects shapes on the grid. A background loop sends the selected chord to a MIDI output. An arpeggiator plays the notes of the selected triangles one after another.

This project models the bookkeeping behind those actions. It covers two source files:

- `arpegiador.py`, the arpeggiator's note pipeline:
  - note names to MIDI numbers;
  - the time between notes from tempo and time signature;
  - octave extension;
  - ordering by mode (up, down, random);
  - the whole pipeline from the selection to the list one cycle plays.
- `main.py`, the player's mutable state:
  - `selected_shapes`, shape id to "circle" or "triangle";
  - the chord window `note_times`;
  - `active_notes`, `last_chord` and `hold_on`.

  It also covers the handlers that update that state:
  - marking and unmarking notes and triangles;
  - triangle clicks and releases;
  - clearing everything;
  - chord detection over a 0.5 s window;
  - MIDI number to note name;
  - arrow-key navigation across the grid;
  - tempo clamping;
  - the simulated note-off;
  - `stop_midi`;
  - one turn of the output loop.

The lookup tables `circle_ids` and `triangle_ids` are given as input. They are modelled as lists of entries with distinct ids, in dictionary order. They are not computed from the grid geometry.

Files:

- `common.dfy`: Option and Result; Python's `set(list)`; picking an element from a set.
- `notes.dfy`: the `dict_notes` table.
- `lattice.dfy`: the circle and triangle tables and their lookups.
- `sorting.dfy`: `sorted`, `list.sort`, `sort(reverse=True)` and `random.shuffle`.
- `arpeggiator.dfy`: `arpegiador.py`.
- `tonnetz.dfy`: the value-level logic of `main.py`. Each handler's effect on the state is stated as a function here, together with lemmas about those functions.
- `player.dfy`: class `Player`. Its fields are the mutable globals of `main.py`, and its methods are the handlers, with loops over the tables as in the source.

## Model

| member | source | states |
|---|---|---|
| Notes.NoteNamesIndexTable | arpegiador.py:4-17 | the i-th key of `dict_notes` in declaration order has MIDI number 60 + i |
| Notes.DictNotesRange | main.py:95-108 | every value of `dict_notes` is in 60..71 |
| Notes.DictNotesInjective | main.py:95-108 | no two note names share a MIDI number |
| Lattice.CircleNote | main.py:765 | looking up a circle id succeeds exactly when the table has an entry with that id, and returns that entry's note |
| Lattice.TriangleNotes | arpegiador.py:78 | looking up a triangle id succeeds exactly when the table has an entry with that id, and returns that entry's notes |
| Lattice.TriangleNotesAt | main.py:876-877 | in a table with distinct ids, looking up an entry's id finds that entry's notes |
| Lattice.CircleNoteAt | main.py:765 | in a table with distinct ids, looking up an entry's id finds that entry's note |
| Sorting.SortUp | arpegiador.py:53 | `sorted` returns a non-decreasing permutation of its input |
| Sorting.SortDown | arpegiador.py:63 | `sort(reverse=True)` leaves a non-increasing permutation |
| Sorting.ReversePermutes | arpegiador.py:63 | reversing a list keeps the same multiset |
| Sorting.Overwrite | arpegiador.py:60 | sorting in place leaves the array holding exactly the given list |
| Sorting.Shuffle | arpegiador.py:66 | `random.shuffle` leaves a permutation of the array, whatever the random draws |
| Arpeggiator.KnownMidiBounds | arpegiador.py:21-26 | converting never yields more numbers than names, and every number is in 60..71 |
| Arpeggiator.KnownMidiAllKnown | arpegiador.py:21-26 | when every name is known, the output has one number per name, in input order, each the table's value |
| Arpeggiator.KnownMidiAppend | arpegiador.py:23-25 | conversion is element-wise: converting a concatenation concatenates the conversions |
| Arpeggiator.KnownMidiElements | arpegiador.py:21-26 | the converted numbers are exactly the table values of the known names |
| Arpeggiator.KnownMidiDistinct | arpegiador.py:81-82 | converting a list of distinct names gives one number per known name |
| Arpeggiator.ConvertNoteToMidi | arpegiador.py:21-26 | the append loop drops unknown names, keeps order, and yields numbers in 60..71 and no more numbers than names |
| Arpeggiator.SplitJoin | arpegiador.py:38-39 | `str.split` then joining with the separator gives back the string, and no piece contains the separator |
| Arpeggiator.ParseInt | arpegiador.py:38-39 | `int()` succeeds exactly on non-empty digit strings, with a non-negative value; otherwise it raises ValueError |
| Arpeggiator.ParseIntDecimal | arpegiador.py:38-39 | `int()` reads back the decimal numeral of every natural number, so the value parsed is the number written |
| Arpeggiator.ParseIntLeadingZero | arpegiador.py:38-39 | a leading zero changes neither whether `int()` succeeds nor the value it returns |
| Arpeggiator.CalculateTimeBetweenNotes | arpegiador.py:30-42 | tempo 0 raises ZeroDivisionError; the result is defined exactly when the signature parses and its unit is non-zero; then time × tempo × unit = 60 × beats |
| Arpeggiator.TimeBetweenNotesPositive | arpegiador.py:35-40 | with positive tempo, beats and unit, the spacing is strictly positive |
| Arpeggiator.SelectorSignatures | main.py:1422 | the signatures offered by the selector, "2/4", "3/4" and "4/4", parse to (2,4), (3,4) and (4,4) |
| Arpeggiator.DefaultSpacing | arpegiador.py:30-42 | 120 BPM in "4/4" gives 0.5 s between notes |
| Arpeggiator.OctaveCopiesLength | arpegiador.py:49-51 | the nested loops produce len(notes) × k values, and none when k <= 0 |
| Arpeggiator.CopiesElements | arpegiador.py:50-51 | the copies of one note are the note shifted by 0..k-1 octaves |
| Arpeggiator.OctaveSpanUnion | arpegiador.py:49-51 | octave copies of a union are the union of the copies |
| Arpeggiator.OctaveCopiesElements | arpegiador.py:49-51 | the values built are exactly each input note shifted by each of 0..k-1 octaves |
| Arpeggiator.ExtendOctave | arpegiador.py:46-53 | `extend_octave` returns a sorted permutation of the octave copies, of length len(notes) × k |
| Arpeggiator.OrderArpeggioNotes | arpegiador.py:57-68 | "up" sorts ascending, "down" descending, "random" shuffles, any other mode leaves the list unchanged; every mode keeps a permutation |
| Arpeggiator.CirclesContributeNothing | arpegiador.py:76-79 | selecting a circle adds no notes to the arpeggio |
| Arpeggiator.IterateSet | arpegiador.py:81-82 | iterating a set visits each element exactly once |
| Arpeggiator.CollectTriangleNotes | arpegiador.py:75-79 | the collected names are exactly the notes of the selected shapes of kind "triangle" |
| Arpeggiator.MultisetSameElements | arpegiador.py:90-91 | a permutation has the same elements |
| Arpeggiator.GetArpeggioNotes | arpegiador.py:72-93 | an empty signature raises IndexError and a non-digit first character raises ValueError, otherwise the result is defined. Its length is (unique known notes + pad) × octaves; its elements are the octave copies of the triangles' notes; it is empty when no triangle is selected; it is sorted descending for "down" and ascending for any mode other than "down" or "random" |
| Tonnetz.ConvertMidiToNote | main.py:668-678 | total on all integers: the name found has MIDI value m mod 12 + 60, so its pitch class is m's |
| Tonnetz.MarkedNotesSelects | main.py:449-461 | after `mark_notes`, every circle with the note is selected, as "circle" unless it had a kind already; other entries are unchanged |
| Tonnetz.MarkedNotesIdempotent | main.py:449-461 | `mark_notes` twice equals once |
| Tonnetz.UnmarkedNotesClears | main.py:465-476 | after `unmark_notes`, no circle with the note is selected, other entries are unchanged, and no id is added |
| Tonnetz.UnmarkedNotesIdempotent | main.py:465-476 | `unmark_notes` twice equals once |
| Tonnetz.UnmarkUndoesMark | main.py:449-476 | releasing a note after pressing it equals only releasing it, and restores the selection when none of its circles was selected |
| Tonnetz.MarkedTrianglesSelects | main.py:480-503 | `mark_triangles` selects every triangle whose notes include the given ones, and then the circles of those notes; with no such triangle nothing changes; existing kinds are kept; a circle newly selected this way has kind "circle"; nothing else is added |
| Tonnetz.UnmarkedTrianglesClears | main.py:507-523 | `unmark_triangles` removes every triangle whose notes lie within the given ones, and then the circles of those notes; nothing is added, and every other entry stays with its kind |
| Tonnetz.ChordAfterUnmarkFrom | main.py:511-517 | `unmark_triangles` keeps `last_chord` when it clears no selected triangle, and otherwise sets it to the notes of the last such triangle in table order, a selected one lying within the given notes |
| Tonnetz.ChordWindowContents | main.py:645-654 | as written, the window keeps a note's first time and holds exactly the entries within 0.5 s, plus the note when it is new |
| Tonnetz.ChordWindowFixedKeepsNote | main.py:645-654 | in the corrected order the window holds the live entries plus the note, every entry is within 0.5 s, and it agrees with the written order unless the note's own entry had expired |
| Tonnetz.RepeatedChordMissed | main.py:645-654 | as written, C, E, G replayed one second after C, E, G leave only E and G in the window |
| Tonnetz.RepeatedChordFound | main.py:645-654 | in the corrected order the replayed chord leaves C, E and G in the window |
| Tonnetz.MarkingKeepsConsistent | main.py:449-523 | the mark and unmark functions only select table entries of the matching kind |
| Tonnetz.MarkedPrefixAll | main.py:486-500 | the loop of `mark_triangles`, turn by turn over the table, computes the stated selection |
| Tonnetz.UnmarkedPrefixAll | main.py:511-520 | the loop of `unmark_triangles`, turn by turn over the table, computes the stated selection |
| Tonnetz.IndexOf | main.py:186 | the position found holds the value, with no earlier occurrence |
| Tonnetz.RemoveFirst | main.py:186 | `list.remove` drops exactly one occurrence, the first, and keeps the order of the rest |
| Tonnetz.NoteOnThenOff | main.py:175-186 | a simulated note-on then note-off of one note restores the sounding notes, in order when the note was not sounding |
| Tonnetz.StopSent | main.py:416-445 | `stop_midi` sends nothing when output is simulated, when the port fails to open or when it is unnamed; otherwise it sends one message per note |
| Tonnetz.StopRemaining | main.py:416-445 | after `stop_midi` no note sounds, except when a named port failed to open, which leaves every note sounding |
| Tonnetz.IncreaseTempo | main.py:1366-1369 | moves up by at most one, never past 180 from a tempo at most 180, and stays put exactly at or above 180 |
| Tonnetz.DecreaseTempo | main.py:1373-1376 | moves down by at most one, never below 20 from a tempo at least 20, and stays put exactly at or below 20 |
| Tonnetz.ValidateTempo | main.py:1380-1385 | the result is in 20..180; values inside are kept; values below become 20 and values above become 180 |
| Tonnetz.TempoStaysInRange | main.py:1366-1385 | the buttons never leave 20..180 from inside it; each undoes the other away from the bounds; validation keeps their results |
| Tonnetz.ValidateTempoIdempotent | main.py:1380-1385 | validating twice equals validating once |
| Tonnetz.NextId | main.py:836-863 | arrow keys map grid ids 1..70 into 1..70 with the stated steps; any other key has no target |
| Tonnetz.NextIdInverse | main.py:836-863 | Left undoes Right and Up undoes Down on every grid id |
| Tonnetz.NextIdWraps | main.py:836-863 | Left from 1 goes to 70, Right from 70 goes to 1, Up from the top row and Down from the bottom row wrap by 56 |
| Tonnetz.ChordTriangles | main.py:825-827 | the ids collected are exactly those of triangles whose note set equals the chord's |
| Tonnetz.MovesSound | main.py:833-871 | each move goes from a chord triangle to its key neighbour, stays in 1..70, and lands on a triangle sharing at least two notes with the chord; every accepted neighbour is moved to; other keys move nothing |
| Tonnetz.AfterMovesKeepsConsistent | main.py:791-809 | moving between table triangles keeps the selection consistent |
| Tonnetz.FirstOfKind | main.py:755-768 | the id found is the first in dictionary order with that kind; there is none exactly when no entry has that kind |
| Tonnetz.ChosenNotesFromSelection | main.py:752-769 | with a triangle selected the loop plays a selected triangle's notes; with only circles, a selected circle's note; with nothing selected, nothing; all notes are in 60..71 |
| TonnetzPlayer.Player.MarkNotes | main.py:449-461 | the loop over `circle_ids` leaves the selection of MarkedNotes |
| TonnetzPlayer.Player.UnmarkNotes | main.py:465-476 | the loop over `circle_ids` leaves the selection of UnmarkedNotes |
| TonnetzPlayer.Player.MarkCircles | main.py:499-500 | marking each note in turn adds the circles of all the notes |
| TonnetzPlayer.Player.UnmarkCircles | main.py:519-520 | unmarking each note in turn removes the circles of all the notes |
| TonnetzPlayer.Player.MarkTriangles | main.py:480-503 | the loop over `triangle_ids` leaves the selection of MarkedTriangles |
| TonnetzPlayer.Player.UnmarkTriangles | main.py:507-523 | the loop leaves the selection of UnmarkedTriangles, and `last_chord` becomes the notes of the last selected triangle it cleared, or stays |
| TonnetzPlayer.Player.HandleTriangleClick | main.py:286-295 | afterwards `last_chord` is the clicked notes; the previous chord is released first only when it is non-empty and a different note set |
| TonnetzPlayer.Player.HandleTriangleUnclick | main.py:299-303 | in hold mode nothing changes; otherwise the chord is released and `last_chord` is what unmark_triangles leaves (ChordAfterUnmark) |
| TonnetzPlayer.Player.SimulatedNoteOn | main.py:175-178 | the note is appended to the sounding notes |
| TonnetzPlayer.Player.SimulatedNoteOff | main.py:182-186 | removes the first occurrence of a sounding note; a note that is not sounding changes nothing |
| TonnetzPlayer.Player.StopMidi | main.py:416-445 | messages and remaining notes as StopSent and StopRemaining; with output simulated the list ends empty |
| TonnetzPlayer.Player.UnmarkShapes | main.py:527-542 | with a non-empty selection, nothing is left selected or sounding and all-notes-off is sent; with an empty one nothing changes |
| TonnetzPlayer.Player.ToggleHold | main.py:1000-1010 | flips hold mode; turning it off sends all-notes-off |
| TonnetzPlayer.Player.ExpireWindow | main.py:648-654 | the loop deletes exactly the entries older than 0.5 s and lists each kept note once |
| TonnetzPlayer.Player.UpdateWindow | main.py:641-654 | the window becomes ChordWindowFixed, and the list holds each of its notes once |
| TonnetzPlayer.Player.DetectChord | main.py:641-664 | triangles are marked only with at least 3 notes in the window; the answer is true exactly when that holds and a triangle is selected |
| TonnetzPlayer.Player.MoveOne | main.py:795-803 | one move releases the old chord and selects the new one; `last_chord` is what releasing the old chord leaves |
| TonnetzPlayer.Player.MoveTriangles | main.py:791-809 | the moves, in order, leave the selection of AfterMoves and the `last_chord` of LastChordAfterMoves (each move's release rewrites it); outside hold mode a move is flagged as in progress |
| TonnetzPlayer.Player.ChordTriangleIds | main.py:825-827 | the loop collects ChordTriangles in table order |
| TonnetzPlayer.Player.NavigationMoves | main.py:833-871 | the loop collects exactly the accepted moves, in order |
| TonnetzPlayer.Player.HandleKey | main.py:813-877 | with a last chord, the accepted moves are applied and `last_chord` becomes the last target's notes; with none, nothing changes |
| TonnetzPlayer.Player.FindFirst | main.py:755-768 | the search stops at the first entry of the kind, or runs to the end when there is none |
| TonnetzPlayer.Player.ChooseNotes | main.py:752-769 | the notes picked are ChosenNotes |
| TonnetzPlayer.Player.GetMidiOutStep | main.py:744-779 | with nothing selected, notes that were sounding are stopped with all-notes-off; otherwise a new chord (as a note set) stops the old notes, becomes the sounding notes and is played unless the arpeggiator runs; the same chord changes nothing |

## Left out

- Tk canvas colouring, widgets and menus. Only the dictionary and list updates of the handlers are modelled.
- Grid geometry (`triangles`, `draw_circles`, `check_triangle_notes`). This is floating-point work; the `circle_ids` and `triangle_ids` tables are taken as given.
- MIDI transport (`mido.open_output`, `port.send`, MIDI input). Whether opening the port fails is the `openFails` parameter. The messages that would be sent are returned as a list.
- `play_midi`. Its simulated branch appends to `active_notes` while iterating over it, so it does not terminate. Its port branch is foreign I/O. GetMidiOutStep only reports that it would be called.
- Threads, timers and `time.sleep`. The `while` loops of `get_midi_out` and navigation are modelled one turn at a time. Two timed calls are not modelled: the `unmark_shapes` that `toggle_hold_mode` schedules, and the `handle_unmark_and_stop_moving` that `move_triangles` schedules, which releases the new triangle's chord with `unmark_triangles` and clears `moving_triangle`. The clock is the `now` parameter of DetectChord.
- The MIDI input listener that calls `detect_chord`, `mark_notes` and `unmark_triangles` (main.py:700-730). It is event plumbing around the modelled handlers.
- Configuration files, dependency checks, and `tk.StringVar` / `tk.IntVar` indirection. Plain values are passed instead.
- `selected_shapes` is a map without insertion order. Where order matters (the first triangle in `get_midi_out`), the dictionary order is the `order` parameter.
- `active_notes` starts as an empty dict in the source and becomes a list once the output loop runs. It is modelled as a list from the start; both are empty.
- ParseInt: accepts ASCII digits only, and so does Arpeggiator.GetArpeggioNotes when it tests the first character of the signature (arpegiador.py:85-86). Python's `int()` also accepts surrounding whitespace, a sign, underscores and other Unicode digits.
- CalculateTimeBetweenNotes: computes with exact reals rather than binary floating point.
- Sorting.Shuffle: only promises a permutation. The distribution of `random.shuffle` is not modelled.
- Arpeggiator.GetArpeggioNotes: the note repeated by the padding is the first of an arbitrary set iteration order. Only which values appear and the length are promised; the order is covered by the mode.
- TonnetzPlayer.Player.UnmarkShapes: clears `active_notes` only when something was selected. This follows the code at main.py:532-542, although the function's comment reads as an unconditional clear.
- TonnetzPlayer.Player.DetectChord: updates the window in the corrected order (see Findings). The order as written is modelled by Tonnetz.ChordWindow.

## Findings

| source | as written | input that shows it | evidently intended | confidence | as-written member | corrected member |
|---|---|---|---|---|---|---|
| main.py:645-654 | A note's time is recorded only when the note has no entry, and expired entries are deleted afterwards. A note pressed again after its entry expired finds the stale entry, is not re-timed, and is then deleted. | window {C:0, E:0, G:0}, then C, E, G pressed at t = 1: the window ends as {E:1, G:1}, so the chord is not detected; played again later, it is detected only on alternate tries | expire first, then record the note if absent, so that the note just played is always in the window | not executed | Tonnetz.RepeatedChordMissed | Tonnetz.ChordWindowFixedKeepsNote |
