/** The pitch-class table `dict_notes`, defined identically in main.py and
    arpegiador.py: twelve note names mapped to the MIDI numbers of the octave
    that starts at middle C. */
module Notes {

  /** MIDI number of the first pitch class, C (main.py's C_MIDI). */
  const BaseMidi: int := 60

  const DictNotes: map<string, int> := map[
    "C" := 60, "Db" := 61, "D" := 62, "Eb" := 63, "E" := 64, "F" := 65,
    "Gb" := 66, "G" := 67, "Ab" := 68, "A" := 69, "Bb" := 70, "B" := 71]

  /** The keys of `DictNotes` in the order the dictionary was written, which is
      the order in which iterating over it visits them. */
  const NoteNames: seq<string> :=
    ["C", "Db", "D", "Eb", "E", "F", "Gb", "G", "Ab", "A", "Bb", "B"]

  /** The i-th name of the table is the pitch class BaseMidi + i. */
  lemma NoteNamesIndexTable(i: int)
    requires 0 <= i < |NoteNames|
    ensures NoteNames[i] in DictNotes && DictNotes[NoteNames[i]] == BaseMidi + i
  {
  }

  /** Every value of the table lies in the base octave 60..71. */
  lemma DictNotesRange(n: string)
    requires n in DictNotes
    ensures BaseMidi <= DictNotes[n] < BaseMidi + 12
  {
  }

  /** Two names with the same MIDI number are the same name. */
  lemma DictNotesInjective(a: string, b: string)
    requires a in DictNotes && b in DictNotes && DictNotes[a] == DictNotes[b]
    ensures a == b
  {
  }
}
