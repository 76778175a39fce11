/** The text of the UPDATE statements the record store assembles at run time. */
module SqlText {

  /** Number of occurrences of `c` in `s`. */
  function Occurrences(c: char, s: string): nat
  {
    if s == [] then 0
    else (if s[0] == c then 1 else 0) + Occurrences(c, s[1..])
  }

  /** A character occurs in a text exactly when it is counted there. */
  lemma {:induction false} OccursIffCounted(c: char, s: string)
    ensures Occurrences(c, s) == 0 <==> c !in s
  {
    if s != [] {
      OccursIffCounted(c, s[1..]);
      assert s == [s[0]] + s[1..];
    }
  }

  lemma {:induction false} OccurrencesAppend(c: char, a: string, b: string)
    ensures Occurrences(c, a + b) == Occurrences(c, a) + Occurrences(c, b)
  {
    if a == [] {
      assert a + b == b;
    } else {
      assert (a + b)[1..] == a[1..] + b;
      OccurrencesAppend(c, a[1..], b);
    }
  }

  /** Python's `sep.join(parts)`. */
  function Join(parts: seq<string>, sep: string): string
  {
    if |parts| == 0 then ""
    else if |parts| == 1 then parts[0]
    else parts[0] + sep + Join(parts[1..], sep)
  }

  /** The `"<column> = ?"` fragment appended for each written column. */
  function SetClause(column: string): string {
    column + " = ?"
  }

  function SetClauses(columns: seq<string>): seq<string>
  {
    seq(|columns|, i requires 0 <= i < |columns| => SetClause(columns[i]))
  }

  /** `f"UPDATE {table} SET {', '.join(updates)} WHERE id = ?"` */
  function UpdateStatement(table: string, columns: seq<string>): string
  {
    Head(table) + Join(SetClauses(columns), ", ") + Where
  }

  function Head(table: string): string {
    "UPDATE " + table + " SET "
  }

  /** The WHERE clause that selects the row by id; its `?` is the last placeholder. */
  const Where: string := " WHERE id = ?"

  /** Joining fragments that hold one `c` each, with a separator free of `c`,
      yields exactly one `c` per fragment. */
  lemma {:induction false} JoinOccurrences(c: char, parts: seq<string>, sep: string)
    requires c !in sep
    requires forall i :: 0 <= i < |parts| ==> Occurrences(c, parts[i]) == 1
    ensures Occurrences(c, Join(parts, sep)) == |parts|
  {
    if |parts| > 1 {
      OccursIffCounted(c, sep);
      JoinOccurrences(c, parts[1..], sep);
      OccurrencesAppend(c, parts[0], sep);
      OccurrencesAppend(c, parts[0] + sep, Join(parts[1..], sep));
    }
  }

  lemma SetClausePlaceholder(column: string)
    requires '?' !in column
    ensures Occurrences('?', SetClause(column)) == 1
  {
    assert SetClause(column) == (column + " = ") + "?";
    EndsInPlaceholder(column + " = ");
  }

  lemma HeadHasNoPlaceholder(table: string)
    requires '?' !in table
    ensures Occurrences('?', Head(table)) == 0
  {
    OccursIffCounted('?', Head(table));
  }

  /** A text free of `?` followed by one `?` holds exactly one. */
  lemma EndsInPlaceholder(text: string)
    requires '?' !in text
    ensures Occurrences('?', text + "?") == 1
  {
    OccursIffCounted('?', text);
    assert "?"[1..] == [];
    OccurrencesAppend('?', text, "?");
  }

  lemma WhereHasOnePlaceholder()
    ensures Occurrences('?', Where) == 1
  {
    assert Where == " WHERE id = " + "?";
    assert '?' !in " WHERE id = ";
    EndsInPlaceholder(" WHERE id = ");
  }

  /** An UPDATE built from columns whose names hold no `?` has one placeholder
      per written column plus the one in its WHERE clause. */
  lemma PlaceholderCount(table: string, columns: seq<string>)
    requires '?' !in table
    requires forall i :: 0 <= i < |columns| ==> '?' !in columns[i]
    ensures Occurrences('?', UpdateStatement(table, columns)) == |columns| + 1
  {
    var clauses := SetClauses(columns);
    forall i | 0 <= i < |clauses|
      ensures Occurrences('?', clauses[i]) == 1
    {
      SetClausePlaceholder(columns[i]);
    }
    JoinOccurrences('?', clauses, ", ");
    var joined := Join(clauses, ", ");
    HeadHasNoPlaceholder(table);
    WhereHasOnePlaceholder();
    OccurrencesAppend('?', Head(table), joined);
    OccurrencesAppend('?', Head(table) + joined, Where);
  }
}
