/** Host identifiers, shared by the dashboard, the repositories and the import. */
module Identifiers {

  /** A UUID is the number it encodes. Its canonical text is fixed-width
      lower-case hexadecimal, so texts compare as the numbers do. */
  type UUID = int

  /** `uuid.Nil` */
  const NIL: UUID := 0

  datatype Option<+T> = None | Some(value: T)

  /** The elements of a sequence. */
  function Elements<T>(s: seq<T>): (r: set<T>)
  {
    set x | x in s
  }

  ghost predicate Distinct<T(!new)>(s: seq<T>)
  {
    forall i, j :: 0 <= i < j < |s| ==> s[i] != s[j]
  }

  /** Some positions of a sequence, each once and in its order. */
  predicate InTurn(positions: seq<nat>)
  {
    forall a, b :: 0 <= a < b < |positions| ==> positions[a] < positions[b]
  }

  ghost function SomeOf<T>(s: set<T>): (x: T)
    requires s != {}
    ensures x in s
  {
    var x :| x in s;
    x
  }
}
