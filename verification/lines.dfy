/**
 Printed output lines. Both display paths print either
 "name arrow data" or "name arrow tag data"; a `Line` keeps those fields
 apart so that properties of the arrow can be stated without parsing text.
 */
module Lines {
  import opened Wrappers

  datatype Line = Line(name: string, arrow: string, tag: Option<string>, data: string)

  const FirstArrow: string := "=>"
  const NextArrow: string := "->"

  /** The marker of a primary line and of every other line. */
  function Arrow(first: bool): (a: string)
    ensures a == FirstArrow <==> first
    ensures a == NextArrow <==> !first
  {
    if first then FirstArrow else NextArrow
  }

  /** The text `println!` writes for one line (without the newline): the name,
      the arrow, the tag if any and the data, separated by single spaces. */
  function Render(l: Line): (text: string)
    ensures |text| == |l.name| + |l.arrow| + |l.data| + 2 + (if l.tag.Some? then |l.tag.value| + 1 else 0)
    ensures text[..|l.name| + |l.arrow| + 2] == l.name + " " + l.arrow + " "
    ensures l.tag.Some? ==>
              var at := |l.name| + |l.arrow| + 2;
              text[at..at + |l.tag.value| + 1] == l.tag.value + " "
    ensures text[|text| - |l.data|..] == l.data
  {
    match l.tag
    case Some(t) => l.name + " " + l.arrow + " " + t + " " + l.data
    case None => l.name + " " + l.arrow + " " + l.data
  }

  function Print(ls: seq<Line>): seq<string>
  {
    seq(|ls|, i requires 0 <= i < |ls| => Render(ls[i]))
  }
}
