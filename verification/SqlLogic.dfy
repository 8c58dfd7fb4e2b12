/** SQL's three-valued logic. */
module SqlLogic {
  import opened Options

  datatype Tri = True | False | Unknown

  function ToTri(b: bool): Tri { if b then True else False }

  function Eq(a: Option<string>, b: Option<string>): Tri {
    if a.Some? && b.Some? then ToTri(a.value == b.value) else Unknown
  }

  function Or(a: Tri, b: Tri): Tri {
    if a == True || b == True then True else if a == False && b == False then False else Unknown
  }

  function And(a: Tri, b: Tri): Tri {
    if a == False || b == False then False else if a == True && b == True then True else Unknown
  }

  function Not(a: Tri): Tri {
    match a
    case True => False
    case False => True
    case Unknown => Unknown
  }

  function IsNull(a: Option<string>): Tri { ToTri(a.None?) }

  /** `x IN (...)`. */
  function In(x: Option<string>, list: seq<Option<string>>): Tri {
    if list == [] then False else Or(Eq(x, list[0]), In(x, list[1..]))
  }

  /** WHERE, IF and CASE WHEN take only TRUE. */
  predicate Accepted(a: Tri) { a == True }
}
