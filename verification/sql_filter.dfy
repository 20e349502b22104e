/** WHERE clauses built from filter conditions, as the list endpoints build
    them: each condition is SQL text with `?` placeholders plus its bound
    arguments, and the conditions are joined with " AND ".

    SQL itself is not modelled. Each condition instead records how the
    database groups its text, as an OR of ANDs of atomic tests (its
    `reading`). Joining texts with " AND " and no parentheses glues the
    last disjunct of the left text to the first of the right one, since
    AND binds tighter than OR; `AndTexts` states exactly that. */
module SqlFilter {

  import opened Common
  import opened Strings

  /** One row, by column name. */
  type Row = map<string, string>

  /** An atomic test. `needle` stands for the bound argument "%needle%". */
  datatype Atom =
    | Like(column: string, needle: string)              // column ILIKE '%needle%'
    | AnyLike(columns: seq<string>, needle: string)     // (c1 ILIKE ... OR c2 ILIKE ... ), parenthesised
    | Eq(column: string, value: string)                 // column = value

  /** `ILIKE '%needle%'`: a case-insensitive substring test. */
  predicate Ilike(row: Row, column: string, needle: string) {
    column in row && Contains(ToLower(row[column]), ToLower(needle))
  }

  predicate Holds(a: Atom, row: Row) {
    match a
    case Like(col, needle) => Ilike(row, col, needle)
    case AnyLike(cols, needle) => exists i :: 0 <= i < |cols| && Ilike(row, cols[i], needle)
    case Eq(col, v) => col in row && row[col] == v
  }

  predicate AllHold(conj: seq<Atom>, row: Row) {
    forall j :: 0 <= j < |conj| ==> Holds(conj[j], row)
  }

  /** How the database groups a clause: a disjunction of conjunctions. */
  type Reading = seq<seq<Atom>>

  predicate Satisfies(r: Reading, row: Row) {
    exists i :: 0 <= i < |r| && AllHold(r[i], row)
  }

  /** A clause that is a single test is satisfied exactly when the test holds. */
  lemma SingleAtom(a: Atom, row: Row)
    ensures Satisfies([[a]], row) <==> Holds(a, row)
  {
    var r: Reading := [[a]];
    if Holds(a, row) {
      assert AllHold(r[0], row);
    }
    if Satisfies(r, row) {
      var i :| 0 <= i < |r| && AllHold(r[i], row);
      assert r[i][0] == a;
    }
  }

  /** The reading of `left + " AND " + right` when neither side carries
      parentheses of its own: the adjacent disjuncts merge. */
  function AndTexts(left: Reading, right: Reading): (r: Reading)
    requires |left| > 0 && |right| > 0
    ensures |r| == |left| + |right| - 1
  {
    left[..|left| - 1] + [left[|left| - 1] + right[0]] + right[1..]
  }

  /** A condition: its text is the pieces separated by `?` placeholders. */
  datatype Condition = Condition(pieces: seq<string>, args: seq<string>, reading: Reading)

  function Text(c: Condition): string {
    Join(c.pieces, "?")
  }

  /** The pieces carry no `?` of their own, there is one argument per
      placeholder, and the reading is not empty. */
  predicate WellFormed(c: Condition) {
    && |c.pieces| == |c.args| + 1
    && (forall i :: 0 <= i < |c.pieces| ==> Count(c.pieces[i], '?') == 0)
    && |c.reading| > 0
  }

  /** A condition whose text reads as a single conjunction, so that AND-ing
      it with neighbours cannot regroup it. */
  predicate Grouped(c: Condition) {
    |c.reading| == 1
  }

  /** The number of `?` in a condition's text is the number of its
      arguments. */
  lemma {:induction false} PlaceholdersOfCondition(pieces: seq<string>)
    requires |pieces| > 0
    requires forall i :: 0 <= i < |pieces| ==> Count(pieces[i], '?') == 0
    ensures Count(Join(pieces, "?"), '?') == |pieces| - 1
    decreases |pieces|
  {
    if |pieces| > 1 {
      PlaceholdersOfCondition(pieces[1..]);
      assert Count("?", '?') == 1 by {
        assert "?"[..0] == "";
      }
      CountConcat(pieces[0], "?", '?');
      CountConcat(pieces[0] + "?", Join(pieces[1..], "?"), '?');
    }
  }

  // ----- The conditions the handlers build -----

  /** The pieces around one placeholder that leave the text free of `?`. */
  lemma {:induction false} TwoPiecesPlain(first: string)
    requires '?' !in first
    ensures forall i :: 0 <= i < |[first, ""]| ==> Count([first, ""][i], '?') == 0
  {
    CountAbsent(first, '?');
    CountAbsent("", '?');
  }

  /** `column ILIKE ?` bound to "%needle%": one grouped substring test. */
  function IlikeCondition(column: string, needle: string): (c: Condition)
    requires '?' !in column
    ensures WellFormed(c) && Grouped(c)
    ensures c.args == ["%" + needle + "%"] && c.reading == [[Like(column, needle)]]
    ensures Text(c) == column + " ILIKE ?"
  {
    TwoPiecesPlain(column + " ILIKE ");
    var ps := [column + " ILIKE ", ""];
    assert ps[1..] == [""] && Join(ps[1..], "?") == "";
    assert Join(ps, "?") == ps[0] + "?" + Join(ps[1..], "?");
    assert ps[0] + "?" + "" == column + " ILIKE ?";
    Condition(ps, ["%" + needle + "%"], [[Like(column, needle)]])
  }

  /** `column = ?` bound to the value itself: one grouped equality test. */
  function EqCondition(column: string, value: string): (c: Condition)
    requires '?' !in column
    ensures WellFormed(c) && Grouped(c)
    ensures c.args == [value] && c.reading == [[Eq(column, value)]]
    ensures Text(c) == column + " = ?"
  {
    TwoPiecesPlain(column + " = ");
    var ps := [column + " = ", ""];
    assert ps[1..] == [""] && Join(ps[1..], "?") == "";
    assert Join(ps, "?") == ps[0] + "?" + Join(ps[1..], "?");
    assert ps[0] + "?" + "" == column + " = ?";
    Condition(ps, [value], [[Eq(column, value)]])
  }

  /** The pieces of ` OR c ILIKE ` for each further column, then `)`. */
  function OrPieces(columns: seq<string>): (ps: seq<string>)
    ensures |ps| == |columns| + 1
    decreases |columns|
  {
    if |columns| == 0 then [")"] else [" OR " + columns[0] + " ILIKE "] + OrPieces(columns[1..])
  }

  /** The pieces of `(c1 ILIKE ? OR c2 ILIKE ? ... )`. */
  function GroupPieces(columns: seq<string>): (ps: seq<string>)
    requires |columns| > 0
    ensures |ps| == |columns| + 1
  {
    ["(" + columns[0] + " ILIKE "] + OrPieces(columns[1..])
  }

  lemma {:induction false} OrPiecesPlain(columns: seq<string>)
    requires forall i :: 0 <= i < |columns| ==> '?' !in columns[i]
    ensures forall i :: 0 <= i < |OrPieces(columns)| ==> Count(OrPieces(columns)[i], '?') == 0
    decreases |columns|
  {
    if |columns| == 0 {
      CountAbsent(")", '?');
    } else {
      OrPiecesPlain(columns[1..]);
      var head := " OR " + columns[0] + " ILIKE ";
      CountAbsent(head, '?');
      assert forall i :: 1 <= i < |OrPieces(columns)| ==> OrPieces(columns)[i] == OrPieces(columns[1..])[i - 1];
    }
  }

  /** `(a ILIKE ? OR b ILIKE ?)`. */
  lemma {:induction false} GroupTextOfTwo(a: string, b: string)
    ensures Join(GroupPieces([a, b]), "?") == "(" + a + " ILIKE ? OR " + b + " ILIKE ?)"
  {
    var ps := GroupPieces([a, b]);
    assert [a, b][1..] == [b] && [b][1..] == [];
    assert OrPieces([b]) == [" OR " + b + " ILIKE "] + OrPieces([]);
    assert ps == ["(" + a + " ILIKE ", " OR " + b + " ILIKE ", ")"];
    assert ps[1..][1..] == [")"];
    assert Join(ps[1..], "?") == ps[1] + "?" + ")";
    assert Join(ps, "?") == ps[0] + "?" + (ps[1] + "?" + ")");
  }

  /** The search group over two columns reads `(a ILIKE ? OR b ILIKE ?)`,
      whatever is searched for. */
  lemma GroupTextOfTwoColumns(a: string, b: string, needle: string)
    requires '?' !in a && '?' !in b
    ensures Text(AnyIlikeCondition([a, b], needle)) == "(" + a + " ILIKE ? OR " + b + " ILIKE ?)"
  {
    GroupTextOfTwo(a, b);
  }

  /** `(a ILIKE ? OR b ILIKE ? OR c ILIKE ?)`. */
  lemma {:induction false} GroupTextOfThree(a: string, b: string, c: string)
    ensures Join(GroupPieces([a, b, c]), "?") == "(" + a + " ILIKE ? OR " + b + " ILIKE ? OR " + c + " ILIKE ?)"
  {
    var ps := GroupPieces([a, b, c]);
    assert [a, b, c][1..] == [b, c] && [b, c][1..] == [c] && [c][1..] == [];
    assert OrPieces([c]) == [" OR " + c + " ILIKE "] + OrPieces([]);
    assert OrPieces([b, c]) == [" OR " + b + " ILIKE "] + OrPieces([c]);
    assert ps == ["(" + a + " ILIKE ", " OR " + b + " ILIKE ", " OR " + c + " ILIKE ", ")"];
    assert ps[1..][1..] == [ps[2], ")"] && ps[1..][1..][1..] == [")"];
    assert Join(ps[1..][1..], "?") == ps[2] + "?" + ")";
    assert Join(ps[1..], "?") == ps[1] + "?" + (ps[2] + "?" + ")");
    assert Join(ps, "?") == ps[0] + "?" + (ps[1] + "?" + (ps[2] + "?" + ")"));
  }

  /** The search group: some column contains the needle. Every column gets
      its own placeholder, each bound to "%needle%", and the parentheses
      keep the alternatives together. */
  function AnyIlikeCondition(columns: seq<string>, needle: string): (c: Condition)
    requires |columns| > 0
    requires forall i :: 0 <= i < |columns| ==> '?' !in columns[i]
    ensures WellFormed(c) && Grouped(c)
    ensures |c.args| == |columns| && forall i :: 0 <= i < |c.args| ==> c.args[i] == "%" + needle + "%"
    ensures c.reading == [[AnyLike(columns, needle)]]
    ensures Text(c) == Join(GroupPieces(columns), "?")
  {
    OrPiecesPlain(columns[1..]);
    CountAbsent("(" + columns[0] + " ILIKE ", '?');
    var ps := GroupPieces(columns);
    assert forall i :: 1 <= i < |ps| ==> ps[i] == OrPieces(columns[1..])[i - 1];
    Condition(ps, seq(|columns|, _ => "%" + needle + "%"), [[AnyLike(columns, needle)]])
  }

  // ----- Joining conditions -----

  function Texts(conds: seq<Condition>): (ts: seq<string>)
    ensures |ts| == |conds|
  {
    if |conds| == 0 then [] else [Text(conds[0])] + Texts(conds[1..])
  }

  function Args(conds: seq<Condition>): seq<string>
  {
    if |conds| == 0 then [] else conds[0].args + Args(conds[1..])
  }

  /** The arguments of consecutive condition lists follow each other. */
  lemma {:induction false} ArgsAppend(a: seq<Condition>, b: seq<Condition>)
    ensures Args(a + b) == Args(a) + Args(b)
    decreases |a|
  {
    if |a| > 0 {
      assert (a + b)[1..] == a[1..] + b;
      ArgsAppend(a[1..], b);
    } else {
      assert a + b == b;
    }
  }

  /** The reading of the texts of `conds` joined by " AND ". */
  function JoinedReading(conds: seq<Condition>): (r: Reading)
    requires |conds| > 0
    requires forall i :: 0 <= i < |conds| ==> |conds[i].reading| > 0
    ensures |r| > 0
  {
    if |conds| == 1 then conds[0].reading
    else AndTexts(conds[0].reading, JoinedReading(conds[1..]))
  }

  /** The clause handed to `Where` with its arguments. */
  datatype Filter = Filter(text: string, args: seq<string>, reading: Reading)

  /** `strings.Join(conditions, " AND ")` with the arguments in the same
      order; no conditions means no WHERE clause at all. When every
      condition is well formed the clause has exactly as many placeholders
      as arguments. */
  function Where(conds: seq<Condition>): (f: Option<Filter>)
    requires forall i :: 0 <= i < |conds| ==> WellFormed(conds[i])
    ensures f.None? <==> |conds| == 0
    ensures f.Some? ==> Count(f.value.text, '?') == |f.value.args|
    ensures f.Some? ==> f.value.args == Args(conds)
  {
    if |conds| == 0 then None
    else
      PlaceholdersOfAll(conds);
      CountAbsent(" AND ", '?');
      CountJoin(Texts(conds), " AND ", '?');
      Some(Filter(Join(Texts(conds), " AND "), Args(conds), JoinedReading(conds)))
  }

  /** The clause of one condition is its own text. */
  lemma {:induction false} WhereTextOfOne(c: Condition)
    requires WellFormed(c)
    ensures Where([c]).value.text == Text(c)
  {
    assert Texts([c]) == [Text(c)] + Texts([]);
  }

  /** The clause of two conditions is their texts joined by " AND ". */
  lemma {:induction false} WhereTextOfTwo(c: Condition, d: Condition)
    requires WellFormed(c) && WellFormed(d)
    ensures Where([c, d]).value.text == Text(c) + " AND " + Text(d)
  {
    assert [c, d][1..] == [d];
    assert Texts([d]) == [Text(d)] + Texts([]);
    assert Texts([c, d]) == [Text(c), Text(d)];
    assert [Text(c), Text(d)][1..] == [Text(d)];
    assert Join([Text(c), Text(d)], " AND ") == Text(c) + " AND " + Join([Text(d)], " AND ");
  }

  lemma {:induction false} PlaceholdersOfAll(conds: seq<Condition>)
    requires forall i :: 0 <= i < |conds| ==> WellFormed(conds[i])
    ensures CountAll(Texts(conds), '?') == |Args(conds)|
    decreases |conds|
  {
    if |conds| > 0 {
      PlaceholdersOfCondition(conds[0].pieces);
      PlaceholdersOfAll(conds[1..]);
    }
  }

  /** The atoms of all conditions, in order. */
  function Atoms(conds: seq<Condition>): seq<Atom>
    requires forall i :: 0 <= i < |conds| ==> Grouped(conds[i])
  {
    if |conds| == 0 then []
    else
      assert Grouped(conds[0]);
      conds[0].reading[0] + Atoms(conds[1..])
  }

  lemma {:induction false} JoinedReadingOfGrouped(conds: seq<Condition>)
    requires |conds| > 0
    requires forall i :: 0 <= i < |conds| ==> Grouped(conds[i])
    ensures forall i :: 0 <= i < |conds| ==> |conds[i].reading| > 0
    ensures JoinedReading(conds) == [Atoms(conds)]
    decreases |conds|
  {
    assert Grouped(conds[0]);
    if |conds| > 1 {
      JoinedReadingOfGrouped(conds[1..]);
    } else {
      assert conds[1..] == [];
      assert Atoms(conds[1..]) == [];
      assert conds[0].reading == [conds[0].reading[0]];
      assert Atoms(conds) == conds[0].reading[0] + Atoms(conds[1..]);
      assert conds[0].reading[0] + [] == conds[0].reading[0];
      assert JoinedReading(conds) == conds[0].reading;
    }
  }

  lemma {:induction false} AllHoldAppend(a: seq<Atom>, b: seq<Atom>, row: Row)
    ensures AllHold(a + b, row) <==> AllHold(a, row) && AllHold(b, row)
  {
    if AllHold(a, row) && AllHold(b, row) {
      forall j | 0 <= j < |a + b|
        ensures Holds((a + b)[j], row)
      {
        if j < |a| {
          assert (a + b)[j] == a[j];
        } else {
          assert (a + b)[j] == b[j - |a|];
        }
      }
    }
    if AllHold(a + b, row) {
      forall j | 0 <= j < |a|
        ensures Holds(a[j], row)
      {
        assert (a + b)[j] == a[j];
      }
      forall j | 0 <= j < |b|
        ensures Holds(b[j], row)
      {
        assert (a + b)[|a| + j] == b[j];
      }
    }
  }

  lemma {:induction false} AtomsHold(conds: seq<Condition>, row: Row)
    requires forall i :: 0 <= i < |conds| ==> Grouped(conds[i])
    ensures AllHold(Atoms(conds), row) <==> forall i :: 0 <= i < |conds| ==> Satisfies(conds[i].reading, row)
    decreases |conds|
  {
    if |conds| > 0 {
      AtomsHold(conds[1..], row);
      AllHoldAppend(conds[0].reading[0], Atoms(conds[1..]), row);
      if forall i :: 0 <= i < |conds[1..]| ==> Satisfies(conds[1..][i].reading, row) {
        forall i | 0 <= i < |conds| && i > 0
          ensures Satisfies(conds[i].reading, row)
        {
          assert conds[1..][i - 1] == conds[i];
        }
      }
    }
  }

  /** When every condition is grouped, a row passes the joined clause
      exactly when it passes every condition: the filter means "all of
      them". */
  lemma WhereMeansAll(conds: seq<Condition>, row: Row)
    requires |conds| > 0
    requires forall i :: 0 <= i < |conds| ==> WellFormed(conds[i]) && Grouped(conds[i])
    ensures Satisfies(Where(conds).value.reading, row)
        <==> forall i :: 0 <= i < |conds| ==> Satisfies(conds[i].reading, row)
  {
    JoinedReadingOfGrouped(conds);
    AtomsHold(conds, row);
    var r := Where(conds).value.reading;
    assert r == [Atoms(conds)];
    if AllHold(Atoms(conds), row) {
      assert AllHold(r[0], row);
    }
  }
}
