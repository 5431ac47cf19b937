/** The two lookup tables the grid builder produces in main.py: `circle_ids`
    (canvas id of a circle to its note) and `triangle_ids` (canvas id of a
    triangle to the notes of its corners). They are Python dictionaries, so
    they are modelled as sequences of entries in insertion order with
    distinct ids; circles and triangles are distinct canvas items, so no id
    is both. */
module Lattice {
  import opened Common

  /** The kind stored in `selected_shapes`: "circle" or "triangle". */
  datatype ShapeKind = CircleShape | TriangleShape

  datatype Circle = Circle(id: int, note: string)

  datatype Triangle = Triangle(id: int, notes: seq<string>)

  datatype Board = Board(circles: seq<Circle>, triangles: seq<Triangle>)

  /** The tables are dictionaries: no id twice in a table, and a canvas id
      names either a circle or a triangle. */
  ghost predicate WellFormed(b: Board)
  {
    && (forall i, j :: 0 <= i < j < |b.circles| ==> b.circles[i].id != b.circles[j].id)
    && (forall i, j :: 0 <= i < j < |b.triangles| ==> b.triangles[i].id != b.triangles[j].id)
    && (forall i, j :: 0 <= i < |b.circles| && 0 <= j < |b.triangles| ==>
          b.circles[i].id != b.triangles[j].id)
  }

  /** `circle_ids[id]["note"]`, or None where Python would raise KeyError. */
  function CircleNote(cs: seq<Circle>, id: int): (r: Option<string>)
    ensures r.Some? <==> exists c :: c in cs && c.id == id
    ensures r.Some? ==> Circle(id, r.value) in cs
  {
    if cs == [] then None
    else if cs[0].id == id then Some(cs[0].note)
    else CircleNote(cs[1..], id)
  }

  /** `triangle_ids[id]["notes"]`, or None where Python would raise KeyError. */
  function TriangleNotes(ts: seq<Triangle>, id: int): (r: Option<seq<string>>)
    ensures r.Some? <==> exists t :: t in ts && t.id == id
    ensures r.Some? ==> Triangle(id, r.value) in ts
  {
    if ts == [] then None
    else if ts[0].id == id then Some(ts[0].notes)
    else TriangleNotes(ts[1..], id)
  }

  /** In a table with distinct ids the lookup of an entry's id finds that entry. */
  lemma {:induction false} TriangleNotesAt(ts: seq<Triangle>, i: int)
    requires 0 <= i < |ts|
    requires forall j, k :: 0 <= j < k < |ts| ==> ts[j].id != ts[k].id
    ensures TriangleNotes(ts, ts[i].id) == Some(ts[i].notes)
  {
    if i > 0 {
      TriangleNotesAt(ts[1..], i - 1);
    }
  }

  lemma {:induction false} CircleNoteAt(cs: seq<Circle>, i: int)
    requires 0 <= i < |cs|
    requires forall j, k :: 0 <= j < k < |cs| ==> cs[j].id != cs[k].id
    ensures CircleNote(cs, cs[i].id) == Some(cs[i].note)
  {
    if i > 0 {
      CircleNoteAt(cs[1..], i - 1);
    }
  }
}
