/** Printing a value with two spaces of indentation, and why a printed object is one array element. */
module JsonPrint {
  import opened TextPatch

  /** A value as it is printed: the text of a scalar, a list, or members in order with their printed names. */
  datatype Value = Atom(text: Line) | List(items: seq<Value>) | Object(members: seq<Member>)

  datatype Member = Member(name: Line, value: Value)

  function Indented(lines: seq<Line>, indent: Line): (r: seq<Line>)
    ensures |r| == |lines| && forall i | 0 <= i < |r| :: r[i] == indent + lines[i]
  {
    if lines == [] then [] else [indent + lines[0]] + Indented(lines[1..], indent)
  }

  function Prefixed(prefix: Line, lines: seq<Line>): (r: seq<Line>)
    requires lines != []
    ensures r != []
  {
    [prefix + lines[0]] + lines[1..]
  }

  function Print(v: Value): (r: seq<Line>)
    ensures r != []
  {
    match v
    case Atom(text) => [text]
    case List(items) => if items == [] then ["[]"] else ["["] + Indented(PrintItems(items), "  ") + ["]"]
    case Object(members) => if members == [] then ["{}"] else ["{"] + Indented(PrintMembers(members), "  ") + ["}"]
  }

  function PrintItems(items: seq<Value>): seq<Line>
  {
    if items == [] then []
    else if |items| == 1 then Print(items[0])
    else WithComma(Print(items[0])) + PrintItems(items[1..])
  }

  function PrintMembers(members: seq<Member>): seq<Line>
  {
    if members == [] then []
    else
      var first := Prefixed("\"" + members[0].name + "\": ", Print(members[0].value));
      if |members| == 1 then first else WithComma(first) + PrintMembers(members[1..])
  }

  /** An element of a top-level array: printed and moved four spaces to the right. */
  function Element(v: Value): Chunk
  {
    Indented(Print(v), "    ")
  }

  lemma InnerLineIsOpen(line: Line)
    ensures !Closes("    " + ("  " + line))
  {
    var inner := "    " + ("  " + line);
    assert inner[4] == ' ' && CLOSE[4] == '}' && (CLOSE + ",")[4] == '}';
  }

  /**
    A printed value closes as an element, with its last line and no earlier one, exactly when it is an
    object with a member; an empty object and every list or scalar at this place does not.
  */
  lemma ElementIsChunk(v: Value)
    requires v.Atom? ==> v.text != "}"
    ensures IsChunk(Element(v)) <==> v.Object? && v.members != []
  {
    var lines, element := Print(v), Element(v);
    var n := |lines| - 1;
    assert element[n] == "    " + lines[n];
    match v
    case Atom(text) => assert element[0][4..] == text && CLOSE[4..] == "}";
    case List(_) => assert element[n][4] != '}';
    case Object(members) =>
      if members == [] {
        assert element[n][4] == '{';
      } else {
        var inner := Indented(PrintMembers(members), "  ");
        assert lines[n] == "}" && element[n] == CLOSE;
        assert element[0][4] == '{';
        forall i | 0 <= i < n ensures !Closes(element[i]) {
          if i > 0 {
            assert lines[i] == inner[i - 1] == "  " + PrintMembers(members)[i - 1];
            InnerLineIsOpen(PrintMembers(members)[i - 1]);
          }
        }
      }
  }
}
