/** The arpeggiator's note pipeline (arpegiador.py): note names to MIDI
    numbers, the spacing between notes from tempo and time signature, octave
    extension, ordering by mode, and the whole pipeline from the selection to
    the list of MIDI numbers one cycle plays. */
module Arpeggiator {
  import opened Common
  import opened Notes
  import opened Lattice
  import opened Sorting

  /** The Python exceptions the pipeline can raise on bad input. */
  datatype PyError = ZeroDivisionError | ValueError | IndexError

  // ---------------------------------------------------------------------
  // convert_note_to_midi

  /** The MIDI numbers of the known names of `names`, in order; unknown
      names are skipped. */
  function KnownMidi(names: seq<string>): seq<int>
  {
    if names == [] then []
    else
      var last := names[|names| - 1];
      KnownMidi(names[..|names| - 1]) + (if last in DictNotes then [DictNotes[last]] else [])
  }

  /** The names of S that the table knows. */
  function KnownNames(S: set<string>): set<string>
  {
    set n | n in S && n in DictNotes
  }

  /** The MIDI numbers of the names of S that the table knows. */
  function MidiSet(S: set<string>): set<int>
  {
    set n | n in S && n in DictNotes :: DictNotes[n]
  }

  /** Converting keeps only table values, so every number is in 60..71,
      and never produces more numbers than there were names. */
  lemma {:induction false} KnownMidiBounds(names: seq<string>)
    ensures |KnownMidi(names)| <= |names|
    ensures forall i :: 0 <= i < |KnownMidi(names)| ==>
              BaseMidi <= KnownMidi(names)[i] < BaseMidi + 12
  {
    if names != [] {
      var last := names[|names| - 1];
      KnownMidiBounds(names[..|names| - 1]);
      if last in DictNotes {
        DictNotesRange(last);
      }
    }
  }

  /** When every name is known, conversion is position by position. */
  lemma {:induction false} KnownMidiAllKnown(names: seq<string>)
    requires forall i :: 0 <= i < |names| ==> names[i] in DictNotes
    ensures |KnownMidi(names)| == |names|
    ensures forall i :: 0 <= i < |names| ==> KnownMidi(names)[i] == DictNotes[names[i]]
  {
    if names != [] {
      KnownMidiAllKnown(names[..|names| - 1]);
    }
  }

  /** Conversion distributes over concatenation: it keeps the input order. */
  lemma {:induction false} KnownMidiAppend(a: seq<string>, b: seq<string>)
    ensures KnownMidi(a + b) == KnownMidi(a) + KnownMidi(b)
  {
    if b == [] {
      assert a + b == a;
    } else {
      assert (a + b)[..|a + b| - 1] == a + b[..|b| - 1];
      KnownMidiAppend(a, b[..|b| - 1]);
    }
  }

  /** The numbers produced are exactly the table values of the known names. */
  lemma {:induction false} KnownMidiElements(names: seq<string>)
    ensures SetOf(KnownMidi(names)) == MidiSet(SetOf(names))
  {
    if names != [] {
      var init := names[..|names| - 1];
      var last := names[|names| - 1];
      KnownMidiElements(init);
      assert names == init + [last];
      SetOfAppend(init, last);
      if last in DictNotes {
        SetOfAppend(KnownMidi(init), DictNotes[last]);
      } else {
        assert KnownMidi(names) == KnownMidi(init);
      }
    }
  }

  /** For names without repetition, one number per known name. */
  lemma {:induction false} KnownMidiDistinct(names: seq<string>)
    requires forall i, j :: 0 <= i < j < |names| ==> names[i] != names[j]
    ensures |KnownMidi(names)| == |KnownNames(SetOf(names))|
  {
    if names != [] {
      var init := names[..|names| - 1];
      var last := names[|names| - 1];
      KnownMidiDistinct(init);
      assert names == init + [last];
      SetOfAppend(init, last);
      assert last !in SetOf(init);
      if last in DictNotes {
        assert KnownNames(SetOf(names)) == KnownNames(SetOf(init)) + {last};
      } else {
        assert KnownNames(SetOf(names)) == KnownNames(SetOf(init));
      }
    }
  }

  /** `convert_note_to_midi`: the loop that appends the MIDI number of each
      known name. */
  method ConvertNoteToMidi(names: seq<string>) returns (midi: seq<int>)
    ensures midi == KnownMidi(names)
    ensures |midi| <= |names|
    ensures forall i :: 0 <= i < |midi| ==> BaseMidi <= midi[i] < BaseMidi + 12
  {
    midi := [];
    for k := 0 to |names|
      invariant midi == KnownMidi(names[..k])
    {
      assert names[..k + 1][..k] == names[..k];
      if names[k] in DictNotes {
        midi := midi + [DictNotes[names[k]]];
      }
    }
    assert names[..|names|] == names;
    KnownMidiBounds(names);
  }

  // ---------------------------------------------------------------------
  // calculate_time_between_notes

  /** Python's `s.split(sep)`: the pieces between separators, at least one. */
  function Split(s: string, sep: char): (parts: seq<string>)
    ensures |parts| >= 1
  {
    if s == [] then [""]
    else
      var rest := Split(s[1..], sep);
      if s[0] == sep then [""] + rest else [[s[0]] + rest[0]] + rest[1..]
  }

  /** `sep.join(parts)`. */
  function Join(parts: seq<string>, sep: char): string
    requires |parts| >= 1
  {
    if |parts| == 1 then parts[0] else parts[0] + [sep] + Join(parts[1..], sep)
  }

  /** Splitting loses nothing: joining the pieces gives the string back, and
      no piece holds the separator. */
  lemma {:induction false} SplitJoin(s: string, sep: char)
    ensures Join(Split(s, sep), sep) == s
    ensures forall i :: 0 <= i < |Split(s, sep)| ==> sep !in Split(s, sep)[i]
  {
    if s != [] {
      SplitJoin(s[1..], sep);
      var rest := Split(s[1..], sep);
      if s[0] != sep {
        var parts := [[s[0]] + rest[0]] + rest[1..];
        if |rest| == 1 {
          assert Join(parts, sep) == [s[0]] + rest[0];
        } else {
          assert parts[1..] == rest[1..];
          assert Join(rest, sep) == rest[0] + [sep] + Join(rest[1..], sep);
        }
        assert s == [s[0]] + s[1..];
      }
    }
  }

  predicate IsDigit(c: char)
  {
    '0' <= c <= '9'
  }

  function DigitValue(c: char): int
    requires IsDigit(c)
  {
    c as int - '0' as int
  }

  /** The value of a string of decimal digits. */
  function DigitsValue(s: string): (v: nat)
    requires forall i :: 0 <= i < |s| ==> IsDigit(s[i])
  {
    if s == [] then 0 else DigitsValue(s[..|s| - 1]) * 10 + DigitValue(s[|s| - 1])
  }

  /** Python's `int(s)` on plain decimal digits; anything else is a
      ValueError. */
  function ParseInt(s: string): (r: Result<int, PyError>)
    ensures r.Ok? <==> s != [] && forall i :: 0 <= i < |s| ==> IsDigit(s[i])
    ensures r.Ok? ==> r.value >= 0
    ensures r.Err? ==> r.error == ValueError
  {
    if s != [] && forall i :: 0 <= i < |s| ==> IsDigit(s[i]) then Ok(DigitsValue(s))
    else Err(ValueError)
  }

  /** The decimal numeral of n with no leading zero, written independently
      of ParseInt. */
  function Decimal(n: nat): (s: string)
    ensures s != [] && forall i :: 0 <= i < |s| ==> IsDigit(s[i])
  {
    var d := ['0' + (n % 10) as char];
    if n < 10 then d else Decimal(n / 10) + d
  }

  /** `int()` reads back the numeral of every natural number. */
  lemma {:induction false} ParseIntDecimal(n: nat)
    ensures ParseInt(Decimal(n)) == Ok(n)
  {
    var s := Decimal(n);
    assert DigitValue(s[|s| - 1]) == n % 10;
    if n >= 10 {
      ParseIntDecimal(n / 10);
      assert s[..|s| - 1] == Decimal(n / 10);
      assert DigitsValue(s) == (n / 10) * 10 + n % 10;
    } else {
      assert s[..|s| - 1] == [];
      assert DigitsValue(s) == n % 10 == n;
    }
  }

  /** A leading zero does not change the value `int()` returns. */
  lemma {:induction false} DigitsValueLeadingZero(s: string)
    requires forall i :: 0 <= i < |s| ==> IsDigit(s[i])
    ensures DigitsValue(['0'] + s) == DigitsValue(s)
  {
    if s != [] {
      DigitsValueLeadingZero(s[..|s| - 1]);
      assert (['0'] + s)[..|s|] == ['0'] + s[..|s| - 1];
    }
  }

  lemma ParseIntLeadingZero(s: string)
    requires s != []
    ensures ParseInt(['0'] + s) == ParseInt(s)
  {
    if forall i :: 0 <= i < |s| ==> IsDigit(s[i]) {
      DigitsValueLeadingZero(s);
    } else {
      var i :| 0 <= i < |s| && !IsDigit(s[i]);
      assert (['0'] + s)[i + 1] == s[i];
    }
  }

  /** `int(compas.split("/")[0])` and `int(compas.split("/")[1])`, with
      Python's errors in Python's evaluation order. */
  function Signature(compas: string): Result<(int, int), PyError>
  {
    var parts := Split(compas, '/');
    var beats := ParseInt(parts[0]);
    if beats.Err? then Err(beats.error)
    else if |parts| < 2 then Err(IndexError)
    else
      var unit := ParseInt(parts[1]);
      if unit.Err? then Err(unit.error)
      else Ok((beats.value, unit.value))
  }

  /** `calculate_time_between_notes`: seconds per beat (60 / tempo) scaled
      by beats / unit of the time signature, as an exact real number. */
  function CalculateTimeBetweenNotes(tempo: int, compas: string): (r: Result<real, PyError>)
    ensures tempo == 0 ==> r == Err(ZeroDivisionError)
    ensures r.Ok? <==> tempo != 0 && Signature(compas).Ok? && Signature(compas).value.1 != 0
    ensures r.Ok? ==>
      var (beats, unit) := Signature(compas).value;
      r.value * (tempo as real) * (unit as real) == 60.0 * (beats as real)
  {
    if tempo == 0 then Err(ZeroDivisionError)
    else
      var timePerBeat := 60.0 / (tempo as real);
      var sig := Signature(compas);
      if sig.Err? then Err(sig.error)
      else if sig.value.1 == 0 then Err(ZeroDivisionError)
      else Ok(timePerBeat * ((sig.value.0 as real) / (sig.value.1 as real)))
  }

  /** A positive tempo and a signature with a positive numerator give a
      strictly positive spacing. */
  lemma TimeBetweenNotesPositive(tempo: int, compas: string)
    requires tempo > 0
    requires Signature(compas).Ok? && Signature(compas).value.0 > 0 && Signature(compas).value.1 > 0
    ensures CalculateTimeBetweenNotes(tempo, compas).Ok?
    ensures CalculateTimeBetweenNotes(tempo, compas).value > 0.0
  {
  }

  /** The three signatures of the selector parse as written. */
  lemma SelectorSignatures()
    ensures Signature("2/4") == Ok((2, 4))
    ensures Signature("3/4") == Ok((3, 4))
    ensures Signature("4/4") == Ok((4, 4))
  {
    assert "4"[1..] == "";
    assert Split("", '/') == [""];
    assert [""][1..] == [];
    assert ['4'] + "" == "4";
    assert Split("4", '/') == ["4"];
    assert "/4"[1..] == "4";
    assert "2/4"[1..] == "/4" && "3/4"[1..] == "/4" && "4/4"[1..] == "/4";
    assert Split("/4", '/') == ["", "4"];
    assert ["", "4"][1..] == ["4"];
    assert ['2'] + "" == "2" && ['3'] + "" == "3";
    assert Split("2/4", '/') == ["2", "4"];
    assert Split("3/4", '/') == ["3", "4"];
    assert Split("4/4", '/') == ["4", "4"];
    assert "4"[..0] == "";
    assert "2"[..0] == "";
    assert "3"[..0] == "";
  }

  /** The default setting, 120 BPM in 4/4, spaces notes half a second apart. */
  lemma DefaultSpacing()
    ensures CalculateTimeBetweenNotes(120, "4/4") == Ok(0.5)
  {
    SelectorSignatures();
  }

  // ---------------------------------------------------------------------
  // extend_octave

  /** Python's `range(k)` has no elements when k <= 0. */
  function RangeLength(k: int): nat
  {
    if k < 0 then 0 else k
  }

  /** n and its copies 1..k-1 octaves up: n, n + 12, ..., n + 12 * (k - 1). */
  function Copies(n: int, k: int): (r: seq<int>)
    ensures |r| == RangeLength(k)
  {
    seq(RangeLength(k), i => n + 12 * i)
  }

  /** The list the two nested loops of `extend_octave` build before sorting. */
  function OctaveCopies(notes: seq<int>, k: int): seq<int>
  {
    if notes == [] then []
    else OctaveCopies(notes[..|notes| - 1], k) + Copies(notes[|notes| - 1], k)
  }

  /** n moved up by i octaves. */
  function Shift(n: int, i: int): int
  {
    n + 12 * i
  }

  /** Every n of S shifted up by 0..k-1 octaves. */
  function OctaveSpan(S: set<int>, k: int): set<int>
  {
    set n, i | n in S && 0 <= i < k :: Shift(n, i)
  }

  lemma {:induction false} OctaveCopiesLength(notes: seq<int>, k: int)
    ensures |OctaveCopies(notes, k)| == |notes| * RangeLength(k)
  {
    if notes != [] {
      var init := notes[..|notes| - 1];
      OctaveCopiesLength(init, k);
      assert |OctaveCopies(notes, k)| == |OctaveCopies(init, k)| + RangeLength(k);
      assert |notes| * RangeLength(k) == |init| * RangeLength(k) + RangeLength(k);
    }
  }

  lemma CopiesElements(n: int, k: int)
    ensures SetOf(Copies(n, k)) == OctaveSpan({n}, k)
  {
    var c := Copies(n, k);
    forall x | x in SetOf(c)
      ensures x in OctaveSpan({n}, k)
    {
      var j :| 0 <= j < |c| && c[j] == x;
      assert x == Shift(n, j);
    }
    forall x | x in OctaveSpan({n}, k)
      ensures x in SetOf(c)
    {
      var m, i :| m in {n} && 0 <= i < k && x == Shift(m, i);
      assert c[i] == x;
    }
  }

  lemma OctaveSpanUnion(A: set<int>, B: set<int>, k: int)
    ensures OctaveSpan(A + B, k) == OctaveSpan(A, k) + OctaveSpan(B, k)
  {
    forall x | x in OctaveSpan(A + B, k)
      ensures x in OctaveSpan(A, k) + OctaveSpan(B, k)
    {
      var m, i :| m in A + B && 0 <= i < k && x == Shift(m, i);
      if m in A {
        assert x in OctaveSpan(A, k);
      } else {
        assert x in OctaveSpan(B, k);
      }
    }
  }

  /** The copies are exactly the octave shifts of the input notes. */
  lemma {:induction false} OctaveCopiesElements(notes: seq<int>, k: int)
    ensures SetOf(OctaveCopies(notes, k)) == OctaveSpan(SetOf(notes), k)
  {
    if notes != [] {
      var init := notes[..|notes| - 1];
      var last := notes[|notes| - 1];
      OctaveCopiesElements(init, k);
      assert notes == init + [last];
      SetOfAppend(init, last);
      CopiesElements(last, k);
      OctaveSpanUnion(SetOf(init), {last}, k);
      var c := Copies(last, k);
      assert SetOf(OctaveCopies(init, k) + c) == SetOf(OctaveCopies(init, k)) + SetOf(c);
    }
  }

  /** `extend_octave`: the octave copies of each note, sorted ascending. */
  method ExtendOctave(notes: seq<int>, octave: int) returns (r: seq<int>)
    ensures SortedUp(r)
    ensures multiset(r) == multiset(OctaveCopies(notes, octave))
    ensures |r| == |notes| * RangeLength(octave)
  {
    var extended: seq<int> := [];
    for j := 0 to |notes|
      invariant extended == OctaveCopies(notes[..j], octave)
    {
      assert notes[..j + 1][..j] == notes[..j];
      ghost var before := extended;
      var i := 0;
      while i < octave
        invariant 0 <= i <= RangeLength(octave)
        invariant extended == before + Copies(notes[j], i)
      {
        extended := extended + [notes[j] + i * 12];
        i := i + 1;
      }
    }
    assert notes[..|notes|] == notes;
    r := SortUp(extended);
    OctaveCopiesLength(notes, octave);
    assert |r| == |multiset(r)| == |extended|;
  }

  // ---------------------------------------------------------------------
  // order_arpeggio_notes

  /** `order_arpeggio_notes`: "up" and "down" sort the list in place,
      "random" shuffles it in place (draws stand for the random source), any
      other mode leaves it as it is. */
  method OrderArpeggioNotes(notes: array<int>, mode: string, draws: seq<nat>)
    modifies notes
    ensures mode == "up" ==> notes[..] == SortUp(old(notes[..]))
    ensures mode == "down" ==> notes[..] == SortDown(old(notes[..]))
    ensures mode != "up" && mode != "down" && mode != "random" ==> notes[..] == old(notes[..])
    ensures multiset(notes[..]) == multiset(old(notes[..]))
  {
    if mode == "up" {
      var sorted := SortUp(notes[..]);
      assert |sorted| == |multiset(sorted)| == notes.Length;
      Overwrite(notes, sorted);
    } else if mode == "down" {
      var sorted := SortDown(notes[..]);
      assert |sorted| == |multiset(sorted)| == notes.Length;
      Overwrite(notes, sorted);
    } else if mode == "random" {
      Shuffle(notes, draws);
    }
  }

  // ---------------------------------------------------------------------
  // get_arpeggio_notes

  /** The notes of the selected shapes of kind "triangle" among `ids`. */
  function TriangleNotesOf(selected: map<int, ShapeKind>, triangles: seq<Triangle>, ids: set<int>): set<string>
  {
    set id, n | id in ids && id in selected && selected[id] == TriangleShape
                && TriangleNotes(triangles, id).Some? && n in TriangleNotes(triangles, id).value :: n
  }

  /** Selecting a circle adds nothing to what the arpeggiator plays. */
  lemma CirclesContributeNothing(selected: map<int, ShapeKind>, triangles: seq<Triangle>, id: int)
    requires id !in selected
    ensures TriangleNotesOf(selected[id := CircleShape], triangles, selected.Keys + {id})
         == TriangleNotesOf(selected, triangles, selected.Keys)
  {
  }

  /** Python's iteration over a set: its elements once each, in an order the
      program does not control. */
  method IterateSet(S: set<string>) returns (r: seq<string>)
    ensures SetOf(r) == S
    ensures forall i, j :: 0 <= i < j < |r| ==> r[i] != r[j]
  {
    r := [];
    var rest := S;
    while rest != {}
      invariant rest <= S
      invariant SetOf(r) == S - rest
      invariant forall i, j :: 0 <= i < j < |r| ==> r[i] != r[j]
      decreases rest
    {
      var x := Pick(rest);
      SetOfAppend(r, x);
      r := r + [x];
      rest := rest - {x};
    }
  }

  /** The loop of `get_arpeggio_notes` that extends a list with the notes
      of every selected triangle, in the dictionary's iteration order (which
      the result's elements do not depend on). */
  method CollectTriangleNotes(selected: map<int, ShapeKind>, triangles: seq<Triangle>)
    returns (notesToPlay: seq<string>)
    requires forall id :: id in selected && selected[id] == TriangleShape ==>
               TriangleNotes(triangles, id).Some?
    ensures SetOf(notesToPlay) == TriangleNotesOf(selected, triangles, selected.Keys)
  {
    notesToPlay := [];
    var pending := selected.Keys;
    while pending != {}
      invariant pending <= selected.Keys
      invariant SetOf(notesToPlay) == TriangleNotesOf(selected, triangles, selected.Keys - pending)
      decreases pending
    {
      var key := Pick(pending);
      ghost var done := selected.Keys - pending;
      if selected[key] == TriangleShape {
        var notes := TriangleNotes(triangles, key).value;
        assert SetOf(notesToPlay + notes) == SetOf(notesToPlay) + SetOf(notes);
        notesToPlay := notesToPlay + notes;
        assert TriangleNotesOf(selected, triangles, done + {key})
            == TriangleNotesOf(selected, triangles, done) + SetOf(notes);
      } else {
        assert TriangleNotesOf(selected, triangles, done + {key})
            == TriangleNotesOf(selected, triangles, done);
      }
      pending := pending - {key};
      assert selected.Keys - pending == done + {key};
    }
    assert selected.Keys - pending == selected.Keys;
  }

  /** 1 when the first character of the signature is a digit that is not a
      multiple of 3 and there is a note to repeat, else 0. */
  function Pad(compas: string, known: set<string>): nat
    requires compas != [] && IsDigit(compas[0])
  {
    if DigitValue(compas[0]) % 3 != 0 && known != {} then 1 else 0
  }

  lemma MultisetSameElements(a: seq<int>, b: seq<int>)
    requires multiset(a) == multiset(b)
    ensures SetOf(a) == SetOf(b)
  {
    assert forall x :: x in a <==> x in multiset(a);
    assert forall x :: x in b <==> x in multiset(b);
  }

  /** `get_arpeggio_notes`: the MIDI numbers one arpeggiator cycle plays.
      Only shapes of kind "triangle" contribute; their notes are merged into
      a set, converted, padded with a repeated note for signatures whose
      first digit is not a multiple of 3, extended over the octaves and
      ordered by mode. */
  method GetArpeggioNotes(selected: map<int, ShapeKind>, triangles: seq<Triangle>,
                          compas: string, octave: int, mode: string, draws: seq<nat>)
    returns (r: Result<seq<int>, PyError>)
    requires forall id :: id in selected && selected[id] == TriangleShape ==>
               TriangleNotes(triangles, id).Some?
    ensures r.Err? <==> compas == [] || !IsDigit(compas[0])
    ensures r.Err? ==> r.error == (if compas == [] then IndexError else ValueError)
    ensures r.Ok? ==>
      var known := KnownNames(TriangleNotesOf(selected, triangles, selected.Keys));
      |r.value| == (|known| + Pad(compas, known)) * RangeLength(octave)
    ensures r.Ok? ==>
      SetOf(r.value) == OctaveSpan(MidiSet(TriangleNotesOf(selected, triangles, selected.Keys)), octave)
    ensures r.Ok? && TriangleNotesOf(selected, triangles, selected.Keys) == {} ==> r.value == []
    ensures r.Ok? && mode == "down" ==> SortedDown(r.value)
    ensures r.Ok? && mode != "down" && mode != "random" ==> SortedUp(r.value)
  {
    var notesToPlay := CollectTriangleNotes(selected, triangles);
    ghost var union := TriangleNotesOf(selected, triangles, selected.Keys);

    var unique := IterateSet(SetOf(notesToPlay));
    var midi := ConvertNoteToMidi(unique);
    KnownMidiDistinct(unique);
    KnownMidiElements(unique);
    assert KnownNames(union) == {} <==> midi == [] by {
      assert forall n :: n in KnownNames(union) ==> DictNotes[n] in MidiSet(union);
    }

    if compas == [] {
      return Err(IndexError);
    }
    if !IsDigit(compas[0]) {
      return Err(ValueError);
    }
    if DigitValue(compas[0]) % 3 != 0 && midi != [] {
      SetOfAppend(midi, midi[0]);
      midi := midi + [midi[0]];
    }
    assert SetOf(midi) == MidiSet(union);
    assert |midi| == |KnownNames(union)| + Pad(compas, KnownNames(union));

    var extended := ExtendOctave(midi, octave);
    OctaveCopiesElements(midi, octave);
    MultisetSameElements(extended, OctaveCopies(midi, octave));
    var buffer := new int[|extended|];
    Overwrite(buffer, extended);
    OrderArpeggioNotes(buffer, mode, draws);
    MultisetSameElements(buffer[..], extended);
    assert |buffer[..]| == |extended|;
    if mode != "up" && mode != "down" && mode != "random" {
      assert buffer[..] == extended;
    }
    r := Ok(buffer[..]);
  }
}
