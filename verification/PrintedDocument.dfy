/**
  Patching the text of a whole printed document. The search for the array's end takes the last line that begins
  like one, so what is appended lands in the last top-level list that has an item, whatever list was named.
*/
module PrintedDocument {
  import opened Sequences
  import opened TextPatch
  import opened JsonPrint

  function MemberLines(m: Member): (r: seq<Line>)
    ensures r != []
  {
    Prefixed("\"" + m.name + "\": ", Print(m.value))
  }

  /** The members with a comma behind each. */
  function Front(members: seq<Member>): seq<Line>
  {
    if members == [] then [] else WithComma(MemberLines(members[0])) + Front(members[1..])
  }

  predicate Listed(v: Value)
  {
    v.List? && v.items != []
  }

  /** What is printed from the member on. */
  function Rest(members: seq<Member>, l: nat): seq<Line>
    requires l < |members|
  {
    if l == |members| - 1 then MemberLines(members[l])
    else WithComma(MemberLines(members[l])) + PrintMembers(members[l + 1..])
  }

  lemma {:induction false} PrintedAt(members: seq<Member>, l: nat)
    requires l < |members|
    ensures PrintMembers(members) == Front(members[..l]) + Rest(members, l)
    decreases l
  {
    if l == 0 {
      assert [] + Rest(members, 0) == Rest(members, 0);
    } else {
      PrintedAt(members[1..], l - 1);
      assert members[..l][1..] == members[1..][..l - 1] && members[1..][l..] == members[l + 1..];
      assert Rest(members[1..], l - 1) == Rest(members, l);
      Assoc(WithComma(MemberLines(members[0])), Front(members[1..][..l - 1]), Rest(members, l));
    }
  }

  // ----- indentation -----

  lemma {:induction false} IndentedConcat(a: seq<Line>, b: seq<Line>, indent: Line)
    ensures Indented(a + b, indent) == Indented(a, indent) + Indented(b, indent)
  {
  }

  lemma IndentedTwice(lines: seq<Line>)
    ensures Indented(Indented(lines, "  "), "  ") == Indented(lines, "    ")
  {
    forall i | 0 <= i < |lines| ensures "  " + ("  " + lines[i]) == "    " + lines[i] {}
  }

  lemma IndentedComma(lines: seq<Line>, indent: Line)
    requires lines != []
    ensures Indented(WithComma(lines), indent) == WithComma(Indented(lines, indent))
  {
    var n := |lines| - 1;
    assert indent + (lines[n] + ",") == (indent + lines[n]) + ",";
  }

  // ----- a list in the document -----

  /** The lines of a list, by the text behind its last line. */
  function ListLines(name: Line, items: seq<Value>, behind: Line): seq<Line>
  {
    ["\"" + name + "\": ["] + Indented(PrintItems(items), "  ") + ["]" + behind]
  }

  lemma ListPrints(m: Member)
    requires Listed(m.value)
    ensures MemberLines(m) == ListLines(m.name, m.value.items, "")
    ensures WithComma(MemberLines(m)) == ListLines(m.name, m.value.items, ",")
  {
    var head, inner := "\"" + m.name + "\": ", Indented(PrintItems(m.value.items), "  ");
    assert Print(m.value) == ["["] + inner + ["]"];
    assert head + "[" == "\"" + m.name + "\": [" && "]" + "" == "]";
    assert MemberLines(m) == [head + "["] + (inner + ["]"]);
  }

  /** The document up to the opening line of the list, and from its end on. */
  function Before(members: seq<Member>, l: nat): Text
    requires l < |members|
  {
    ["{"] + Indented(Front(members[..l]), "  ") + [OpenLine(members[l].name)]
  }

  function After(members: seq<Member>, l: nat): Text
    requires l < |members|
  {
    if l == |members| - 1 then ["  ]"] + ["}"]
    else ["  ],"] + Indented(PrintMembers(members[l + 1..]), "  ") + ["}"]
  }

  function Lines(items: seq<Value>): seq<Line>
  {
    Indented(PrintItems(items), "    ")
  }

  lemma ListIndented(name: Line, items: seq<Value>, behind: Line)
    ensures Indented(ListLines(name, items, behind), "  ") == [OpenLine(name)] + Lines(items) + ["  ]" + behind]
  {
    var a, b, c := ["\"" + name + "\": ["], Indented(PrintItems(items), "  "), ["]" + behind];
    IndentedConcat(a + b, c, "  ");
    IndentedConcat(a, b, "  ");
    IndentedTwice(PrintItems(items));
    assert "  " + ("\"" + name + "\": [") == OpenLine(name) && "  " + ("]" + behind) == "  ]" + behind;
  }

  /** A printed document, taken apart around one of its lists. */
  lemma DocumentAt(members: seq<Member>, l: nat)
    requires l < |members| && Listed(members[l].value)
    ensures Print(Object(members)) == Before(members, l) + Lines(members[l].value.items) + After(members, l)
  {
    PrintedAt(members, l);
    IndentedConcat(Front(members[..l]), Rest(members, l), "  ");
    ListPrints(members[l]);
    RestIndented(members, l);
    var head, front, lines := ["{"], Indented(Front(members[..l]), "  "), Lines(members[l].value.items);
    assert Print(Object(members)) == head + (front + Indented(Rest(members, l), "  ")) + ["}"];
    Apart(head, front, [OpenLine(members[l].name)], lines, Indented(Rest(members, l), "  "), After(members, l));
  }

  lemma RestIndented(members: seq<Member>, l: nat)
    requires l < |members| && Listed(members[l].value)
    ensures Indented(Rest(members, l), "  ") + ["}"]
            == [OpenLine(members[l].name)] + Lines(members[l].value.items) + After(members, l)
  {
    var m := members[l];
    ListPrints(m);
    if l == |members| - 1 {
      ListIndented(m.name, m.value.items, "");
      assert "  ]" + "" == "  ]";
      Assoc([OpenLine(m.name)] + Lines(m.value.items), ["  ]"], ["}"]);
    } else {
      var later := Indented(PrintMembers(members[l + 1..]), "  ");
      ListIndented(m.name, m.value.items, ",");
      assert "  ]" + "," == "  ],";
      IndentedConcat(WithComma(MemberLines(m)), PrintMembers(members[l + 1..]), "  ");
      Regroup([OpenLine(m.name)] + Lines(m.value.items), ["  ],"], later, ["}"]);
    }
  }

  lemma Regroup(a: Text, b: Text, c: Text, d: Text)
    ensures a + b + c + d == a + (b + c + d)
  {
  }

  lemma Apart(head: Text, front: Text, open: Text, lines: Text, rest: Text, after: Text)
    requires rest + ["}"] == open + lines + after
    ensures head + (front + rest) + ["}"] == (head + front + open) + lines + after
  {
    assert head + (front + rest) + ["}"] == head + front + (rest + ["}"]);
  }

  // ----- adding items to a list -----

  /** The members with more items in one list. */
  function Extended(members: seq<Member>, l: nat, extra: seq<Value>): seq<Member>
    requires l < |members| && Listed(members[l].value)
  {
    members[l := Member(members[l].name, List(members[l].value.items + extra))]
  }

  function Chunks(values: seq<Value>): (chunks: seq<Chunk>)
    ensures |chunks| == |values| && forall i | 0 <= i < |chunks| :: chunks[i] == Element(values[i]) && chunks[i] != []
  {
    seq(|values|, i requires 0 <= i < |values| => Element(values[i]))
  }

  lemma {:induction false} ItemsConcat(a: seq<Value>, b: seq<Value>)
    requires a != [] && b != []
    ensures PrintItems(a) != [] && PrintItems(a + b) == WithComma(PrintItems(a)) + PrintItems(b)
  {
    assert (a + b)[1..] == a[1..] + b;
    if |a| > 1 {
      ItemsConcat(a[1..], b);
      WithCommaBehind(WithComma(Print(a[0])), PrintItems(a[1..]));
      Assoc(WithComma(Print(a[0])), WithComma(PrintItems(a[1..])), PrintItems(b));
    }
  }

  lemma {:induction false} ItemsSnoc(a: seq<Value>, v: Value)
    ensures PrintItems(a + [v]) == (if a == [] then Print(v) else WithComma(PrintItems(a)) + Print(v))
    ensures a != [] ==> PrintItems(a) != []
  {
    if a == [] {
      assert a + [v] == [v];
    } else {
      ItemsConcat(a, [v]);
    }
  }

  lemma LinesConcat(a: seq<Value>, b: seq<Value>)
    requires a != [] && b != []
    ensures Lines(a) != [] && Lines(a + b) == WithComma(Lines(a)) + Lines(b)
  {
    ItemsConcat(a, b);
    IndentedConcat(WithComma(PrintItems(a)), PrintItems(b), "    ");
    IndentedComma(PrintItems(a), "    ");
  }

  lemma LinesOfOne(v: Value)
    ensures Lines([v]) == Element(v)
  {
  }

  lemma ChunksFront(values: seq<Value>)
    requires values != []
    ensures Chunks(values)[..|values| - 1] == Chunks(values[..|values| - 1])
  {
  }

  lemma CommaedFront(values: seq<Value>)
    requires values != []
    ensures Commaed(Chunks(values)) == Commaed(Chunks(values[..|values| - 1])) + WithComma(Element(values[|values| - 1]))
  {
    var chunks := Chunks(values);
    ChunksFront(values);
    CommaedUnfolds(chunks);
  }

  lemma CommaedUnfolds(chunks: seq<Chunk>)
    requires chunks != [] && forall i | 0 <= i < |chunks| :: chunks[i] != []
    ensures Commaed(chunks) == Commaed(chunks[..|chunks| - 1]) + WithComma(chunks[|chunks| - 1])
  {
  }

  lemma {:induction false} CommaedIsLines(values: seq<Value>)
    requires values != []
    ensures Lines(values) != [] && Commaed(Chunks(values)) == WithComma(Lines(values))
  {
    var n := |values| - 1;
    var front, last := values[..n], values[n];
    LastSplit(values);
    CommaedFront(values);
    LinesOfOne(last);
    if front == [] {
      assert values == [last];
      assert Commaed(Chunks(front)) + WithComma(Element(last)) == WithComma(Element(last));
    } else {
      CommaedIsLines(front);
      LinesConcat(front, [last]);
      WithCommaBehind(WithComma(Lines(front)), Element(last));
    }
  }

  /** Elements joined by commas are a list's items as printed. */
  lemma BodyIsLines(values: seq<Value>)
    requires values != []
    ensures Body(Chunks(values)) == Lines(values)
  {
    var n := |values| - 1;
    var front, last := values[..n], values[n];
    LastSplit(values);
    ChunksFront(values);
    LinesOfOne(last);
    if front == [] {
      assert values == [last];
      assert Commaed(Chunks(front)) + Element(last) == Element(last);
    } else {
      CommaedIsLines(front);
      LinesConcat(front, [last]);
    }
  }

  lemma ExtendedAt(members: seq<Member>, l: nat, extra: seq<Value>)
    requires l < |members| && Listed(members[l].value) && extra != []
    ensures Lines(members[l].value.items) != []
    ensures Print(Object(Extended(members, l, extra)))
            == Before(members, l) + (WithComma(Lines(members[l].value.items)) + Lines(extra)) + After(members, l)
  {
    var longer := Extended(members, l, extra);
    DocumentAt(longer, l);
    LinesConcat(members[l].value.items, extra);
    assert longer[..l] == members[..l] && longer[l + 1..] == members[l + 1..];
  }

  // ----- where the array is found -----

  /** A name that is printed without escapes. */
  predicate Plain(name: Line)
  {
    forall i | 0 <= i < |name| :: name[i] != '"' && name[i] != '\\'
  }

  /** Any printed name: a quotation mark stands behind a backslash. */
  predicate Escaped(name: Line)
  {
    forall i | 0 <= i < |name| && name[i] == '"' :: i > 0 && name[i - 1] == '\\'
  }

  lemma SameName(a: Line, b: Line, x: Line)
    requires Escaped(a) && Plain(b) && "\"" + a + "\": " + x == "\"" + b + "\": ["
    ensures a == b
  {
    var s, t := "\"" + a + "\": " + x, "\"" + b + "\": [";
    assert s[|a| + 1] == '"' && t[|b| + 1] == '"';
    assert forall i | 0 <= i < |a| :: s[i + 1] == a[i];
    assert forall i | 0 <= i < |b| :: t[i + 1] == b[i];
    assert a == s[1..|a| + 1] && b == t[1..|b| + 1];
  }

  /** A line inside or behind a member, if it is not the member's first one. */
  predicate Inner(line: Line)
  {
    line != [] && line[0] != '"'
  }

  /** The lines of a member: the first begins with its name, and only a list ends like an array. */
  lemma MemberShape(m: Member, comma: bool)
    ensures var lines := if comma then WithComma(MemberLines(m)) else MemberLines(m);
      && lines != []
      && (exists x :: lines[0] == "\"" + m.name + "\": " + x)
      && (forall i | 1 <= i < |lines| :: Inner(lines[i]))
      && (!Listed(m.value) ==> forall i | 0 <= i < |lines| :: lines[i] != [] && lines[i][0] != ']')
  {
    var head, printed, lines := "\"" + m.name + "\": ", Print(m.value), MemberLines(m);
    var n := |lines| - 1;
    assert lines[0] == head + printed[0];
    assert head + (printed[0] + ",") == head + printed[0] + ",";
    ValueShape(m.value);
    var done := if comma then WithComma(lines) else lines;
    if comma && n == 0 {
      assert done[0] == head + (printed[0] + ",");
    } else {
      assert done[0] == head + printed[0];
    }
    forall i | 1 <= i < |done| ensures Inner(done[i]) && (!Listed(m.value) ==> done[i][0] != ']') {
      assert lines[i] == printed[i];
    }
  }

  lemma ValueShape(v: Value)
    ensures forall i | 1 <= i < |Print(v)| :: Inner(Print(v)[i]) && (!Listed(v) ==> Print(v)[i][0] != ']')
  {
    match v
    case Atom(_) =>
    case List(items) =>
      if items != [] {
        var inner := Indented(PrintItems(items), "  ");
        forall i | 1 <= i <= |inner| ensures Inner(Print(v)[i]) { assert Print(v)[i] == inner[i - 1]; }
      }
    case Object(members) =>
      if members != [] {
        var inner := Indented(PrintMembers(members), "  ");
        forall i | 1 <= i <= |inner| ensures Inner(Print(v)[i]) && Print(v)[i][0] != ']' { assert Print(v)[i] == inner[i - 1]; }
      }
  }

  /** The lines of some members, each as it stands in the document. */
  lemma {:induction false} FrontShape(members: seq<Member>, key: Line)
    requires forall i | 0 <= i < |members| :: members[i].name != key && Escaped(members[i].name)
    requires Plain(key)
    ensures forall i | 0 <= i < |Front(members)| :: "  " + Front(members)[i] != OpenLine(key)
  {
    if members != [] {
      var first := WithComma(MemberLines(members[0]));
      FrontShape(members[1..], key);
      MemberShape(members[0], true);
      forall i | 0 <= i < |first| ensures "  " + first[i] != OpenLine(key) { NotOpen(first, i, members[0].name, key); }
    }
  }

  lemma NotOpen(lines: seq<Line>, i: nat, name: Line, key: Line)
    requires i < |lines| && name != key && Escaped(name) && Plain(key)
    requires exists x :: lines[0] == "\"" + name + "\": " + x
    requires forall i | 1 <= i < |lines| :: Inner(lines[i])
    ensures "  " + lines[i] != OpenLine(key)
  {
    var open := "\"" + key + "\": [";
    assert OpenLine(key) == "  " + open;
    assert ("  " + lines[i])[2..] == lines[i] && OpenLine(key)[2..] == open;
    if i == 0 {
      var x :| lines[0] == "\"" + name + "\": " + x;
      if lines[0] == open { SameName(name, key, x); }
    } else {
      assert open[0] == '"';
    }
  }

  /** No line begins with a closing bracket. */
  predicate NoBracket(lines: seq<Line>)
  {
    forall i | 0 <= i < |lines| :: lines[i] != [] && lines[i][0] != ']'
  }

  /** Members that are no lists with items print no line that ends an array. */
  lemma {:induction false} NoListNoEnd(members: seq<Member>)
    requires forall i | 0 <= i < |members| :: !Listed(members[i].value)
    ensures NoBracket(PrintMembers(members))
  {
    if members != [] {
      MemberShape(members[0], |members| > 1);
      NoListNoEnd(members[1..]);
    }
  }

  lemma IndentedNoEnd(lines: seq<Line>)
    requires NoBracket(lines)
    ensures forall i | 0 <= i < |lines| :: !("  ]" <= Indented(lines, "  ")[i])
  {
    forall i | 0 <= i < |lines| ensures !("  ]" <= Indented(lines, "  ")[i]) {
      assert ("  " + lines[i])[2] == lines[i][0];
    }
  }

  /** The document's own array: its member is the first of that name and the last list with an item. */
  lemma ArrayInDocument(members: seq<Member>, i: nat, l: nat, key: Line)
    requires i <= l < |members| && members[i].name == key && Listed(members[i].value) && Listed(members[l].value)
    requires Plain(key) && forall j | 0 <= j < |members| :: Escaped(members[j].name)
    requires forall j | 0 <= j < i :: members[j].name != key
    requires forall j | l < j < |members| :: !Listed(members[j].value)
    ensures ArrayAt(Print(Object(members)), key, |Before(members, i)| - 1,
                    |Before(members, l)| + |Lines(members[l].value.items)|)
  {
    var text, lines := Print(Object(members)), Lines(members[l].value.items);
    DocumentAt(members, i);
    DocumentAt(members, l);
    BeforeGrows(members, i, l);
    OpensThere(members, i, key);
    EndsThere(members, l);
    Assoc(Before(members, i), Lines(members[i].value.items), After(members, i));
    FirstOpening(text, Before(members, i), Lines(members[i].value.items) + After(members, i), key);
    LastEnding(text, Before(members, l) + lines, After(members, l));
  }

  lemma FirstOpening(text: Text, front: Text, rest: Text, key: Line)
    requires text == front + rest && |front| >= 2 && |rest| >= 2 && front[|front| - 1] == OpenLine(key)
    requires forall j | 0 <= j < |front| - 1 :: front[j] != OpenLine(key)
    ensures OpensAt(text, key, |front| - 1) && forall j: nat | j < |front| - 1 :: !OpensAt(text, key, j)
  {
  }

  lemma LastEnding(text: Text, front: Text, after: Text)
    requires text == front + after && |front| >= 1 && |after| >= 1 && "  ]" <= after[0]
    requires forall j | 1 <= j < |after| :: !("  ]" <= after[j])
    ensures EndsAt(text, |front|) && forall j: nat | |front| < j < |text| :: !EndsAt(text, j)
  {
    assert text[|front|] == after[0];
    forall j: nat | |front| < j < |text| ensures !EndsAt(text, j) { assert text[j] == after[j - |front|]; }
  }

  lemma OpensThere(members: seq<Member>, i: nat, key: Line)
    requires i < |members| && members[i].name == key
    requires Plain(key) && forall j | 0 <= j < |members| :: Escaped(members[j].name)
    requires forall j | 0 <= j < i :: members[j].name != key
    ensures var b := Before(members, i);
      |b| >= 2 && b[|b| - 1] == OpenLine(key) && forall j | 0 <= j < |b| - 1 :: b[j] != OpenLine(key)
  {
    var front := Front(members[..i]);
    FrontShape(members[..i], key);
    assert "{" != OpenLine(key) by { assert "{"[0] != OpenLine(key)[0]; }
    forall j | 0 <= j < |front| ensures Indented(front, "  ")[j] != OpenLine(key) { assert "  " + front[j] != OpenLine(key); }
  }

  lemma EndsThere(members: seq<Member>, l: nat)
    requires l < |members| && forall j | l < j < |members| :: !Listed(members[j].value)
    ensures var a := After(members, l);
      |a| >= 2 && "  ]" <= a[0] && forall j | 1 <= j < |a| :: !("  ]" <= a[j])
  {
    NoListNoEnd(members[l + 1..]);
    IndentedNoEnd(PrintMembers(members[l + 1..]));
    OnlyFirst(if l == |members| - 1 then "  ]" else "  ],",
              if l == |members| - 1 then [] else Indented(PrintMembers(members[l + 1..]), "  "), "}");
    assert ["  ]"] + [] == ["  ]"];
  }

  lemma OnlyFirst(first: Line, middle: seq<Line>, last: Line)
    requires "  ]" <= first && !("  ]" <= last) && forall j | 0 <= j < |middle| :: !("  ]" <= middle[j])
    ensures var a := [first] + middle + [last];
      |a| >= 2 && a[0] == first && forall j | 1 <= j < |a| :: !("  ]" <= a[j])
  {
  }

  lemma BeforeGrows(members: seq<Member>, i: nat, l: nat)
    requires i <= l < |members| && Listed(members[i].value) && Listed(members[l].value)
    ensures |Before(members, i)| <= |Before(members, l)|
    ensures i < l ==> |Before(members, i)| + |Lines(members[i].value.items)| < |Before(members, l)|
  {
    if i < l {
      FrontSplit(members[..l], i);
      assert members[..l][..i] == members[..i];
      ListPrints(members[i]);
    }
  }

  lemma {:induction false} FrontSplit(members: seq<Member>, i: nat)
    requires i < |members|
    ensures |Front(members)| >= |Front(members[..i])| + |MemberLines(members[i])|
    decreases i
  {
    if i > 0 {
      FrontSplit(members[1..], i - 1);
      assert members[..i][1..] == members[1..][..i - 1];
    }
  }

  // ----- what appending does -----

  /**
    Appending to the list `key` of a printed document adds the elements to the last top-level list that has an
    item, which need not be the one that was named.
  */
  lemma AppendLandsLast(members: seq<Member>, i: nat, l: nat, key: Line, extra: seq<Value>)
    requires i <= l < |members| && members[i].name == key && Listed(members[i].value) && Listed(members[l].value)
    requires Plain(key) && forall j | 0 <= j < |members| :: Escaped(members[j].name)
    requires forall j | 0 <= j < i :: members[j].name != key
    requires forall j | l < j < |members| :: !Listed(members[j].value)
    requires extra != []
    ensures HasArray(Print(Object(members)), key)
    ensures Appended(Print(Object(members)), key, Chunks(extra)) == Print(Object(Extended(members, l, extra)))
  {
    var text, lines := Print(Object(members)), Lines(members[l].value.items);
    ArrayInDocument(members, i, l, key);
    ArrayIsFound(text, key, |Before(members, i)| - 1, |Before(members, l)| + |lines|);
    DocumentAt(members, l);
    BodyIsLines(extra);
    ExtendedAt(members, l, extra);
    CutAt(Before(members, l), lines, After(members, l));
    WithCommaBehind(Before(members, l), lines);
    Assoc(Before(members, l), WithComma(lines), Lines(extra));
  }

  lemma CutAt(a: Text, b: Text, c: Text)
    ensures (a + b + c)[..|a| + |b|] == a + b && (a + b + c)[|a| + |b|..] == c
  {
  }

  /** It is the list that was named exactly when no later member is a list with an item. */
  lemma AppendLandsExactlyWhen(members: seq<Member>, i: nat, key: Line, extra: seq<Value>)
    requires i < |members| && members[i].name == key && Listed(members[i].value) && extra != []
    requires Plain(key) && forall j | 0 <= j < |members| :: Escaped(members[j].name)
    requires forall j | 0 <= j < i :: members[j].name != key
    ensures HasArray(Print(Object(members)), key)
    ensures Appended(Print(Object(members)), key, Chunks(extra)) == Print(Object(Extended(members, i, extra)))
            <==> forall j | i < j < |members| :: !Listed(members[j].value)
  {
    var l := LastListed(members, i);
    AppendLandsLast(members, i, l, key, extra);
    if i < l { LandsElsewhere(members, i, l, extra); }
  }

  lemma {:induction false} LastListed(members: seq<Member>, i: nat) returns (l: nat)
    requires i < |members| && Listed(members[i].value)
    ensures i <= l < |members| && Listed(members[l].value) && forall j | l < j < |members| :: !Listed(members[j].value)
    decreases |members|
  {
    var n := |members| - 1;
    if Listed(members[n].value) {
      l := n;
    } else {
      l := LastListed(members[..n], i);
      forall j | l < j < |members| ensures !Listed(members[j].value) {
        if j < n { assert members[..n][j] == members[j]; }
      }
    }
  }

  /** The last line of the earlier list gains a comma in one text and not in the other. */
  lemma LandsElsewhere(members: seq<Member>, i: nat, l: nat, extra: seq<Value>)
    requires i < l < |members| && Listed(members[i].value) && Listed(members[l].value) && extra != []
    ensures Print(Object(Extended(members, i, extra))) != Print(Object(Extended(members, l, extra)))
  {
    var lines := Lines(members[i].value.items);
    ExtendedAt(members, i, extra);
    var k := |Before(members, i)| + |lines| - 1;
    LineAt(Before(members, i), WithComma(lines) + Lines(extra), After(members, i), |lines| - 1);
    assert Print(Object(Extended(members, i, extra)))[k] == lines[|lines| - 1] + ",";
    var longer := Extended(members, l, extra);
    assert longer[i] == members[i] && longer[..i] == members[..i];
    DocumentAt(longer, i);
    LineAt(Before(members, i), lines, After(longer, i), |lines| - 1);
    assert Print(Object(longer))[k] == lines[|lines| - 1];
  }

  lemma LineAt(a: Text, b: Text, c: Text, j: nat)
    requires j < |b|
    ensures |a + b + c| > |a| + j && (a + b + c)[|a| + j] == b[j]
  {
  }

  // ----- what patching does -----

  /** Objects with a member: each is printed as one element. */
  predicate FullObjects(values: seq<Value>)
  {
    forall i | 0 <= i < |values| :: values[i].Object? && values[i].members != []
  }

  lemma ChunksOfObjects(values: seq<Value>)
    requires FullObjects(values)
    ensures AllChunks(Chunks(values))
  {
    forall i | 0 <= i < |values| ensures IsChunk(Chunks(values)[i]) { ElementIsChunk(values[i]); }
  }

  /** The last list with items, as the patcher finds it. */
  lemma FoundInDocument(members: seq<Member>, i: nat, key: Line)
    requires i < |members| && members[i].name == key && Listed(members[i].value)
    requires Plain(key) && forall j | 0 <= j < |members| :: Escaped(members[j].name)
    requires forall j | 0 <= j < i :: members[j].name != key
    requires forall j | i < j < |members| :: !Listed(members[j].value)
    ensures var text := Print(Object(members));
      && HasArray(text, key)
      && Between(text, key) == Lines(members[i].value.items)
      && forall lines :: Around(text, key, lines) == Before(members, i) + lines + After(members, i)
  {
    var text, lines := Print(Object(members)), Lines(members[i].value.items);
    ArrayInDocument(members, i, i, key);
    ArrayIsFound(text, key, |Before(members, i)| - 1, |Before(members, i)| + |lines|);
    DocumentAt(members, i);
    PartsFound(text, Before(members, i), lines, After(members, i), key);
  }

  lemma PartsFound(text: Text, a: Text, b: Text, c: Text, key: Line)
    requires text == a + b + c && |a| >= 1 && HasArray(text, key)
    requires FindOpen(text, key, 0) == |a| - 1 && FindEnd(text, |text|) == |a| + |b|
    ensures Between(text, key) == b && forall lines :: Around(text, key, lines) == a + lines + c
  {
    MiddleOf(a, b, c);
  }

  lemma ElementsBetween(text: Text, key: string)
    requires HasArray(text, key) && Between(text, key) != []
    ensures Elements(text, key) == Scan(Between(text, key)).chunks
  {
  }

  lemma ScannedItems(values: seq<Value>)
    requires values != [] && FullObjects(values)
    ensures Lines(values) != [] && Scan(Lines(values)).chunks == Chunks(values)
  {
    ChunksOfObjects(values);
    BodyIsLines(values);
    BodyNotEmpty(Chunks(values));
    ScanBody(Chunks(values));
  }

  /**
    In the last list with items the patch sees exactly the printed items, and what it writes for other objects
    is the document printed with these.
  */
  lemma PatchRewritesList(members: seq<Member>, i: nat, key: Line, values: seq<Value>)
    requires i < |members| && members[i].name == key && Listed(members[i].value) && FullObjects(members[i].value.items)
    requires Plain(key) && forall j | 0 <= j < |members| :: Escaped(members[j].name)
    requires forall j | 0 <= j < i :: members[j].name != key
    requires forall j | i < j < |members| :: !Listed(members[j].value)
    requires values != [] && FullObjects(values)
    ensures var text := Print(Object(members));
      && HasArray(text, key)
      && Elements(text, key) == Chunks(members[i].value.items)
      && AllChunks(Chunks(values))
      && Written(text, key, Chunks(values)) == Print(Object(members[i := Member(key, List(values))]))
  {
    var text, other := Print(Object(members)), members[i := Member(key, List(values))];
    FoundInDocument(members, i, key);
    ScannedItems(members[i].value.items);
    ElementsBetween(text, key);
    ChunksOfObjects(values);
    BodyIsLines(values);
    WrittenParts(text, key, Chunks(values));
    DocumentAt(other, i);
    assert other[..i] == members[..i] && other[i + 1..] == members[i + 1..];
  }
}
