/** Vocabulary shared by both analysis passes: identifiers as they appear in
    the Go syntax tree, the blank identifier, and an optional value. */
module GoSyntax {

  /** An optional value; `None` stands for the Java `null` (or for an
      "unknown" sentinel) wherever the analysed code tests for one. */
  datatype Option<+T> = None | Some(value: T)

  /** An identifier occurrence: `id` is an opaque anchor standing for the
      syntax element (where a finding is reported), `name` its source text. */
  datatype Ident = Ident(id: nat, name: string)

  /** Go's blank identifier, the placeholder for "intentionally unused". */
  const BlankName: string := "_"

  predicate IsBlank(x: Ident) {
    x.name == BlankName
  }

  /** The names of a sequence of identifiers, as a set. */
  function NamesOf(ids: seq<Ident>): (r: set<string>)
    ensures forall n :: n in r <==> exists i :: 0 <= i < |ids| && ids[i].name == n
  {
    set i | 0 <= i < |ids| :: ids[i].name
  }

  /** Concatenation of a sequence of identifier lists, left to right. */
  function Flatten(groups: seq<seq<Ident>>): (r: seq<Ident>)
    ensures forall x :: x in r <==> exists g :: g in groups && x in g
  {
    if groups == [] then [] else groups[0] + Flatten(groups[1..])
  }
}
