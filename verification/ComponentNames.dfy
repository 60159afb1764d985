/** Names of components: from definition names, made free by a number, and numbered for anonymous types. */
module ComponentNames {
  import opened Options

  /** The part after the last dot. */
  function LastSegment(definition: string): string
  {
    if definition == [] then []
    else
      var n := |definition| - 1;
      if definition[n] == '.' then [] else LastSegment(definition[..n]) + [definition[n]]
  }

  predicate IdentifierStart(c: char) { 'A' <= c <= 'Z' || 'a' <= c <= 'z' || c == '_' }

  predicate IsDigit(c: char) { '0' <= c <= '9' }

  predicate IsIdentifier(s: string)
  {
    s != [] && IdentifierStart(s[0]) && forall i | 0 <= i < |s| :: IdentifierStart(s[i]) || IsDigit(s[i])
  }

  /** The short name of a definition, or `None` for an anonymous or generic type. */
  function ComponentNameFor(definition: string): Option<string>
  {
    var last := LastSegment(definition);
    if IsIdentifier(last) then Some(last) else None
  }

  /** Prisma's recursive JSON unions, which the generator reads as "any JSON". */
  predicate IsAnyJson(definition: string)
  {
    LastSegment(definition) in
      {"JsonValue", "JsonObject", "JsonArray", "InputJsonValue", "InputJsonObject", "InputJsonArray"}
  }

  /** The name is this, or ends with this behind a dot. */
  ghost predicate EndsIn(definition: string, last: string)
  {
    definition == last || exists p :: definition == p + "." + last
  }

  lemma {:induction false} SegmentEnds(definition: string)
    ensures '.' !in LastSegment(definition) && EndsIn(definition, LastSegment(definition))
  {
    if definition != [] {
      var n := |definition| - 1;
      SegmentEnds(definition[..n]);
      assert definition == definition[..n] + [definition[n]];
      if definition[n] == '.' {
        assert definition == definition[..n] + "." + [];
      } else if p :| definition[..n] == p + "." + LastSegment(definition[..n]) {
        assert definition == p + "." + LastSegment(definition);
      }
    }
  }

  lemma {:induction false} EndIsSegment(front: string, last: string)
    requires '.' !in last && (front == [] || front[|front| - 1] == '.')
    ensures LastSegment(front + last) == last
  {
    if last == [] {
      assert front + last == front;
    } else {
      var n := |last| - 1;
      assert (front + last)[..|front| + n] == front + last[..n];
      EndIsSegment(front, last[..n]);
      assert last == last[..n] + [last[n]];
    }
  }

  /** The short name is the identifier that the name is, or that stands behind its last dot. */
  lemma ShortNameExactly(definition: string, last: string)
    ensures ComponentNameFor(definition) == Some(last) <==> IsIdentifier(last) && EndsIn(definition, last)
  {
    SegmentExactly(definition, last);
    if IsIdentifier(last) { assert forall i | 0 <= i < |last| :: last[i] != '.'; }
  }

  /** "Any JSON" is what is named so, or ends so behind a dot. */
  lemma AnyJsonExactly(definition: string)
    ensures IsAnyJson(definition) <==>
            || EndsIn(definition, "JsonValue") || EndsIn(definition, "JsonObject") || EndsIn(definition, "JsonArray")
            || EndsIn(definition, "InputJsonValue") || EndsIn(definition, "InputJsonObject")
            || EndsIn(definition, "InputJsonArray")
  {
    SegmentExactly(definition, "JsonValue");
    SegmentExactly(definition, "JsonObject");
    SegmentExactly(definition, "JsonArray");
    SegmentExactly(definition, "InputJsonValue");
    SegmentExactly(definition, "InputJsonObject");
    SegmentExactly(definition, "InputJsonArray");
  }

  lemma SegmentExactly(definition: string, last: string)
    ensures LastSegment(definition) == last <==> '.' !in last && EndsIn(definition, last)
  {
    SegmentEnds(definition);
    if '.' !in last && EndsIn(definition, last) {
      if definition == last {
        EndIsSegment([], last);
        assert [] + last == definition;
      } else {
        var p :| definition == p + "." + last;
        EndIsSegment(p + ".", last);
      }
    }
  }

  // ----- decimal numerals -----

  function Digit(d: nat): char
    requires d < 10
  {
    '0' + d as char
  }

  function Decimal(n: nat): (s: string)
    ensures s != []
  {
    if n < 10 then [Digit(n)] else Decimal(n / 10) + [Digit(n % 10)]
  }

  function Numeral(s: string): nat
    requires AllDigits(s)
  {
    if s == [] then 0 else 10 * Numeral(s[..|s| - 1]) + (s[|s| - 1] - '0') as nat
  }

  predicate AllDigits(s: string)
  {
    forall i | 0 <= i < |s| :: IsDigit(s[i])
  }

  lemma {:induction false} DecimalRoundTrip(n: nat)
    ensures AllDigits(Decimal(n)) && Numeral(Decimal(n)) == n
  {
    if n >= 10 {
      DecimalRoundTrip(n / 10);
      assert Decimal(n)[..|Decimal(n)| - 1] == Decimal(n / 10);
    } else {
      assert Decimal(n)[..0] == [];
    }
  }

  /** Numbered names are distinct. */
  lemma NumberedDistinct(wanted: string, i: nat, j: nat)
    requires wanted + Decimal(i) == wanted + Decimal(j)
    ensures i == j
  {
    assert (wanted + Decimal(i))[|wanted|..] == Decimal(i);
    assert (wanted + Decimal(j))[|wanted|..] == Decimal(j);
    DecimalRoundTrip(i);
    DecimalRoundTrip(j);
  }

  // ----- a free name -----

  ghost predicate NumberedFrom(name: string, wanted: string, i: nat)
  {
    exists j: nat :: j >= i && name == wanted + Decimal(j)
  }

  ghost function TakenFrom(taken: set<string>, wanted: string, i: nat): set<string>
  {
    set n | n in taken && NumberedFrom(n, wanted, i)
  }

  /** The least number from `i` on that makes `wanted` free; the taken names are finitely many. */
  function FreeIndex(taken: set<string>, wanted: string, i: nat): (k: nat)
    ensures wanted + Decimal(k) !in taken
    ensures k >= i && forall j: nat | i <= j < k :: wanted + Decimal(j) in taken
    decreases TakenFrom(taken, wanted, i)
  {
    if wanted + Decimal(i) !in taken then i
    else
      TakenShrinks(taken, wanted, i);
      FreeIndex(taken, wanted, i + 1)
  }

  lemma TakenShrinks(taken: set<string>, wanted: string, i: nat)
    requires wanted + Decimal(i) in taken
    ensures TakenFrom(taken, wanted, i + 1) < TakenFrom(taken, wanted, i)
  {
    forall n | NumberedFrom(n, wanted, i + 1) ensures NumberedFrom(n, wanted, i) {
      var j: nat :| j >= i + 1 && n == wanted + Decimal(j);
    }
    var name := wanted + Decimal(i);
    assert NumberedFrom(name, wanted, i);
    if NumberedFrom(name, wanted, i + 1) {
      var j: nat :| j >= i + 1 && name == wanted + Decimal(j);
      NumberedDistinct(wanted, i, j);
    }
    assert name in TakenFrom(taken, wanted, i) && name !in TakenFrom(taken, wanted, i + 1);
  }

  /** `wanted` itself, or `wanted2`, `wanted3`, ... */
  function FreeName(taken: set<string>, wanted: string): (name: string)
    ensures name !in taken
    ensures wanted !in taken ==> name == wanted
  {
    if wanted !in taken then wanted else wanted + Decimal(FreeIndex(taken, wanted, 2))
  }

  // ----- names of anonymous types -----

  const ANONYMOUS := "Anonymous"

  function AnonymousName(k: nat): string
  {
    ANONYMOUS + Decimal(k)
  }

  /** `Anonymous` followed by digits only, or by nothing. */
  predicate AnonLike(name: string)
  {
    ANONYMOUS <= name && AllDigits(name[|ANONYMOUS|..])
  }

  lemma AnonymousIsAnonLike(k: nat)
    ensures AnonLike(AnonymousName(k))
  {
    DecimalRoundTrip(k);
    assert AnonymousName(k)[|ANONYMOUS|..] == Decimal(k);
  }

  lemma ShortNameNotAnonymous(wanted: string, digits: string)
    requires |wanted| < |ANONYMOUS| && digits != [] && AllDigits(digits)
    ensures !(ANONYMOUS <= wanted + digits)
  {
    assert (wanted + digits)[|wanted|] == digits[0];
    assert forall i | 0 <= i < |ANONYMOUS| :: !IsDigit(ANONYMOUS[i]);
  }

  /** A number never turns another name into an anonymous one. */
  lemma FreeNameNotAnonLike(taken: set<string>, wanted: string)
    requires !AnonLike(wanted)
    ensures !AnonLike(FreeName(taken, wanted))
  {
    var name := FreeName(taken, wanted);
    if AnonLike(name) && name != wanted {
      var k := FreeIndex(taken, wanted, 2);
      var digits := Decimal(k);
      DecimalRoundTrip(k);
      assert name == wanted + digits;
      if |wanted| < |ANONYMOUS| {
        ShortNameNotAnonymous(wanted, digits);
      } else {
        assert wanted[..|ANONYMOUS|] == name[..|ANONYMOUS|] == ANONYMOUS;
        forall i | 0 <= i < |wanted[|ANONYMOUS|..]| ensures IsDigit(wanted[|ANONYMOUS|..][i]) {
          assert name[|ANONYMOUS|..][i] == wanted[|ANONYMOUS|..][i];
        }
      }
    }
  }
}
