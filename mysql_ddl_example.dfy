/**
 * `_remove_foreign_keys` on a small `SHOW CREATE TABLE` text: a foreign-key constraint
 * whose `ON DELETE` action is the last definition of the table.
 */
module MySqlDdlExample {
  import opened Common
  import opened Text
  import opened MySqlDdl

  /** The column list up to its last column definition. */
  const Columns: string := "(`p` int"
  /** An index on a foreign-key column, named `fk_` like the constraint. */
  const FkIndex: string := "," + ("KEY" + (" " + ("`fk_" + ("p" + ("`" + (" " + ("(" + ("`p`" + ")"))))))))
  /** The body of `SHOW CREATE TABLE` for a table `c` whose column `p` references `t`. */
  const Table: string := Columns + (FkIndex + Constraint)

  /** `,CONSTRAINT `fk_p` FOREIGN KEY (`p`) REFERENCES `t` (`id`) ON DELETE CASCADE) ENGINE=MyISAM` */
  const Constraint: string := "," + ("CONSTRAINT" + (" " + ("`" + ("fk_p" + ("`" + FromForeign)))))
  /** The text from position 18 on. */
  const FromForeign: string := " " + ("FOREIGN" + (" " + ("KEY" + (" " + ("(" + FromColumn)))))
  /** The text from position 32 on. */
  const FromColumn: string := "`p`" + (")" + (" " + ("REFERENCES" + (" " + ("`" + ("t" + ("`" + FromTarget)))))))
  /** The text from position 51 on. */
  const FromTarget: string := " " + ("(" + ("`id`" + (")" + (" " + FromAction))))
  /** The text from position 59 on. */
  const FromAction: string := "ON" + (" " + ("DELETE" + AfterDelete))
  /** The text from position 68 on: no comma up to the end, past the closing parenthesis. */
  const AfterDelete: string := " CASCADE) ENGINE=MyISAM"

  // Each step below reads the text from `i` on as a literal followed by the rest `w`.

  lemma Advance(u: string, i: nat, x: string, w: string)
    requires i <= |u| && u[i..] == x + w
    ensures i + |x| <= |u| && u[i + |x|..] == w
  {
    assert u[i + |x|..] == (x + w)[|x|..];
  }

  lemma SymAt(u: string, i: nat, c: char, w: string)
    requires i <= |u| && u[i..] == [c] + w
    ensures Step(Sym(c), u, i) == Some(i + 1) && u[i + 1..] == w
  {
    assert u[i] == u[i..][0];
    Advance(u, i, [c], w);
  }

  lemma KeyAt(u: string, i: nat, lit: string, w: string)
    requires i <= |u| && u[i..] == lit + w
    ensures Step(Key(lit), u, i) == Some(i + |lit|) && u[i + |lit|..] == w
  {
    assert forall k :: 0 <= k < |lit| ==> u[i..][k] == lit[k];
    Advance(u, i, lit, w);
  }

  lemma BlankAt(u: string, i: nat, w: string)
    requires i <= |u| && u[i..] == " " + w && w != [] && !IsSpace(w[0])
    ensures Step(Blanks1, u, i) == Some(i + 1) && Step(Blanks0, u, i) == Some(i + 1)
    ensures u[i + 1..] == w
  {
    assert u[i] == u[i..][0] && u[i + 1] == u[i..][1];
    SpaceEndAt(u, i, i + 1);
    Advance(u, i, " ", w);
  }

  lemma NoBlankAt(u: string, i: nat)
    requires i < |u| && !IsSpace(u[i])
    ensures Step(Blanks0, u, i) == Some(i)
  {
    SpaceEndAt(u, i, i);
  }

  lemma RunEndAt(u: string, i: nat, stop: char, j: nat)
    requires i <= j <= |u|
    requires forall k :: i <= k < j ==> u[k] != stop
    requires j == |u| || u[j] == stop
    ensures RunEnd(u, i, stop) == j
  {
  }

  lemma UptoAt(u: string, i: nat, x: string, close: char, w: string)
    requires i <= |u| && u[i..] == x + ([close] + w) && x != [] && close !in x
    ensures Step(Upto(close), u, i) == Some(i + |x| + 1) && u[i + |x| + 1..] == w
  {
    assert forall k :: i <= k < i + |x| ==> u[k] == u[i..][k - i] == x[k - i];
    assert u[i + |x|] == u[i..][|x|];
    RunEndAt(u, i, close, i + |x|);
    Advance(u, i, x, [close] + w);
    Advance(u, i + |x|, [close], w);
  }

  /** Steps that reach `j` followed by more steps: the latter start from `j`. */
  lemma StepsAppend(p: seq<Piece>, q: seq<Piece>, u: string, i: nat, j: nat)
    requires i <= |u| && Steps(p, u, i) == Some(j)
    ensures Steps(p + q, u, i) == Steps(q, u, j)
    decreases |p|
  {
    if p == [] {
      assert p + q == q;
    } else {
      var k := Step(p[0], u, i).value;
      assert (p + q)[0] == p[0] && (p + q)[1..] == p[1..] + q;
      StepsAppend(p[1..], q, u, k, j);
    }
  }

  /** A piece that reaches `j`, followed by more pieces. */
  lemma StepOn(x: Piece, rest: seq<Piece>, u: string, i: nat, j: nat)
    requires i <= |u| && Step(x, u, i) == Some(j)
    ensures Steps([x] + rest, u, i) == Steps(rest, u, j)
  {
    assert ([x] + rest)[0] == x && ([x] + rest)[1..] == rest;
  }

  // The constraint's pieces in four parts, each written as its first piece and the rest.
  const NamePieces: seq<Piece> := [Sym(',')] + ([Blanks0] + ([Key("CONSTRAINT")] + ([Blanks1] + ([Sym('`')] + [Upto('`')]))))
  const ColumnPieces: seq<Piece> := [Blanks1] + ([Key("FOREIGN")] + ([Blanks1] + ([Key("KEY")] + ([Blanks0] + [Sym('(')]))))
  const ReferencePieces: seq<Piece> := [Upto(')')] + ([Blanks1] + ([Key("REFERENCES")] + ([Blanks1] + ([Sym('`')] + [Upto('`')]))))
  const TargetPieces: seq<Piece> := [Blanks0] + ([Sym('(')] + ([Upto(')')] + [Blanks0]))

  lemma ConstraintPiecesSplit()
    ensures ConstraintPieces == NamePieces + (ColumnPieces + (ReferencePieces + TargetPieces))
  {
  }

  /** `,CONSTRAINT `fk_p``. */
  lemma ConstraintName(u: string, w: string)
    requires u == "," + ("CONSTRAINT" + (" " + ("`" + ("fk_p" + ("`" + w)))))
    ensures Steps(NamePieces, u, 0) == Some(18) && u[18..] == w
  {
    var w1 := "CONSTRAINT" + (" " + ("`" + ("fk_p" + ("`" + w))));
    assert u[0..] == u;
    SymAt(u, 0, ',', w1);
    StepOn(Sym(','), [Blanks0] + ([Key("CONSTRAINT")] + ([Blanks1] + ([Sym('`')] + [Upto('`')]))), u, 0, 1);
    NoBlankAt(u, 1);
    StepOn(Blanks0, [Key("CONSTRAINT")] + ([Blanks1] + ([Sym('`')] + [Upto('`')])), u, 1, 1);
    KeyAt(u, 1, "CONSTRAINT", " " + ("`" + ("fk_p" + ("`" + w))));
    StepOn(Key("CONSTRAINT"), [Blanks1] + ([Sym('`')] + [Upto('`')]), u, 1, 11);
    NameQuoted(u, w);
  }

  /** `` `fk_p` `` after its blank. */
  lemma NameQuoted(u: string, w: string)
    requires 11 <= |u| && u[11..] == " " + ("`" + ("fk_p" + ("`" + w)))
    ensures Steps([Blanks1] + ([Sym('`')] + [Upto('`')]), u, 11) == Some(18) && u[18..] == w
  {
    var w13 := "fk_p" + ("`" + w);
    BlankAt(u, 11, "`" + w13);
    StepOn(Blanks1, [Sym('`')] + [Upto('`')], u, 11, 12);
    SymAt(u, 12, '`', w13);
    StepOn(Sym('`'), [Upto('`')], u, 12, 13);
    UptoAt(u, 13, "fk_p", '`', w);
    StepOn(Upto('`'), [], u, 13, 18);
    assert [Upto('`')] + [] == [Upto('`')];
  }

  /** ` FOREIGN KEY (`. */
  lemma ConstraintColumns(u: string, w: string)
    requires 18 <= |u| && u[18..] == " " + ("FOREIGN" + (" " + ("KEY" + (" " + ("(" + w)))))
    ensures Steps(ColumnPieces, u, 18) == Some(32) && u[32..] == w
  {
    var w26 := " " + ("KEY" + (" " + ("(" + w)));
    BlankAt(u, 18, "FOREIGN" + w26);
    StepOn(Blanks1, [Key("FOREIGN")] + ([Blanks1] + ([Key("KEY")] + ([Blanks0] + [Sym('(')]))), u, 18, 19);
    KeyAt(u, 19, "FOREIGN", w26);
    StepOn(Key("FOREIGN"), [Blanks1] + ([Key("KEY")] + ([Blanks0] + [Sym('(')])), u, 19, 26);
    ColumnsKey(u, w);
  }

  /** ` KEY (`. */
  lemma ColumnsKey(u: string, w: string)
    requires 26 <= |u| && u[26..] == " " + ("KEY" + (" " + ("(" + w)))
    ensures Steps([Blanks1] + ([Key("KEY")] + ([Blanks0] + [Sym('(')])), u, 26) == Some(32) && u[32..] == w
  {
    BlankAt(u, 26, "KEY" + (" " + ("(" + w)));
    StepOn(Blanks1, [Key("KEY")] + ([Blanks0] + [Sym('(')]), u, 26, 27);
    KeyAt(u, 27, "KEY", " " + ("(" + w));
    StepOn(Key("KEY"), [Blanks0] + [Sym('(')], u, 27, 30);
    BlankAt(u, 30, "(" + w);
    StepOn(Blanks0, [Sym('(')], u, 30, 31);
    SymAt(u, 31, '(', w);
    StepOn(Sym('('), [], u, 31, 32);
    assert [Sym('(')] + [] == [Sym('(')];
  }

  /** `` `p`) REFERENCES `t` ``. */
  lemma ConstraintReferences(u: string, w: string)
    requires 32 <= |u| && u[32..] == "`p`" + (")" + (" " + ("REFERENCES" + (" " + ("`" + ("t" + ("`" + w)))))))
    ensures Steps(ReferencePieces, u, 32) == Some(51) && u[51..] == w
  {
    var w47 := " " + ("`" + ("t" + ("`" + w)));
    UptoAt(u, 32, "`p`", ')', " " + ("REFERENCES" + w47));
    StepOn(Upto(')'), [Blanks1] + ([Key("REFERENCES")] + ([Blanks1] + ([Sym('`')] + [Upto('`')]))), u, 32, 36);
    BlankAt(u, 36, "REFERENCES" + w47);
    StepOn(Blanks1, [Key("REFERENCES")] + ([Blanks1] + ([Sym('`')] + [Upto('`')])), u, 36, 37);
    KeyAt(u, 37, "REFERENCES", w47);
    StepOn(Key("REFERENCES"), [Blanks1] + ([Sym('`')] + [Upto('`')]), u, 37, 47);
    ReferencedTable(u, w);
  }

  /** `` `t` `` after its blank. */
  lemma ReferencedTable(u: string, w: string)
    requires 47 <= |u| && u[47..] == " " + ("`" + ("t" + ("`" + w)))
    ensures Steps([Blanks1] + ([Sym('`')] + [Upto('`')]), u, 47) == Some(51) && u[51..] == w
  {
    var w49 := "t" + ("`" + w);
    BlankAt(u, 47, "`" + w49);
    StepOn(Blanks1, [Sym('`')] + [Upto('`')], u, 47, 48);
    SymAt(u, 48, '`', w49);
    StepOn(Sym('`'), [Upto('`')], u, 48, 49);
    UptoAt(u, 49, "t", '`', w);
    StepOn(Upto('`'), [], u, 49, 51);
    assert [Upto('`')] + [] == [Upto('`')];
  }

  /** `` (`id`) ``, up to the `ON` of the action. */
  lemma ConstraintTarget(u: string, w: string)
    requires 51 <= |u| && u[51..] == " " + ("(" + ("`id`" + (")" + (" " + w)))) && w != [] && !IsSpace(w[0])
    ensures Steps(TargetPieces, u, 51) == Some(59) && u[59..] == w
  {
    var w53 := "`id`" + (")" + (" " + w));
    BlankAt(u, 51, "(" + w53);
    StepOn(Blanks0, [Sym('(')] + ([Upto(')')] + [Blanks0]), u, 51, 52);
    SymAt(u, 52, '(', w53);
    StepOn(Sym('('), [Upto(')')] + [Blanks0], u, 52, 53);
    TargetColumn(u, w);
  }

  /** `` `id`) `` and the blanks before the action. */
  lemma TargetColumn(u: string, w: string)
    requires 53 <= |u| && u[53..] == "`id`" + (")" + (" " + w)) && w != [] && !IsSpace(w[0])
    ensures Steps([Upto(')')] + [Blanks0], u, 53) == Some(59) && u[59..] == w
  {
    UptoAt(u, 53, "`id`", ')', " " + w);
    StepOn(Upto(')'), [Blanks0], u, 53, 58);
    BlankAt(u, 58, w);
    StepOn(Blanks0, [], u, 58, 59);
    assert [Blanks0] + [] == [Blanks0];
  }

  lemma RunToEnd(u: string, i: nat, stop: char, w: string)
    requires i <= |u| && u[i..] == w && stop !in w
    ensures RunEnd(u, i, stop) == |u|
  {
    assert forall k :: i <= k < |u| ==> u[k] == w[k - i];
    RunEndAt(u, i, stop, |u|);
  }

  /** `ON DELETE` followed by a blank and at least one more character, none of them a comma. */
  lemma ConstraintAction(u: string, w: string)
    requires 59 <= |u| && u[59..] == "ON" + (" " + ("DELETE" + w))
    requires |w| >= 2 && w[0] == ' ' && ',' !in w
    ensures ActionClause(u, 59, "DELETE") == Some(|u|)
  {
    KeyAt(u, 59, "ON", " " + ("DELETE" + w));
    StepOn(Key("ON"), [Blanks1] + [Key("DELETE")], u, 59, 61);
    BlankAt(u, 61, "DELETE" + w);
    StepOn(Blanks1, [Key("DELETE")], u, 61, 62);
    KeyAt(u, 62, "DELETE", w);
    StepOn(Key("DELETE"), [], u, 62, 68);
    assert [Key("DELETE")] + [] == [Key("DELETE")];
    assert [Key("ON")] + ([Blanks1] + [Key("DELETE")]) == [Key("ON"), Blanks1, Key("DELETE")];
    assert u[68] == w[0];
    RunToEnd(u, 68, ',', w);
  }

  /** The pieces of the constraint end at the `ON` of its action. */
  lemma ConstraintPiecesEnd()
    ensures PiecesEnd(ConstraintPieces, Constraint) == Some(59)
    ensures Constraint[59..] == FromAction
  {
    var u := Constraint;
    ConstraintName(u, FromForeign);
    ConstraintColumns(u, FromColumn);
    ConstraintReferences(u, FromTarget);
    ConstraintTarget(u, FromAction);
    ConstraintPiecesSplit();
    StepsAppend(NamePieces, ColumnPieces + (ReferencePieces + TargetPieces), u, 0, 18);
    StepsAppend(ColumnPieces, ReferencePieces + TargetPieces, u, 18, 32);
    StepsAppend(ReferencePieces, TargetPieces, u, 32, 51);
  }

  /**
   * The `ON DELETE` action of the last definition runs to the end of the text, so the
   * match takes the closing parenthesis and the table options with it.
   */
  lemma ConstraintTakesTail()
    ensures ForeignKeyConstraint(Constraint) == Some(|Constraint|)
  {
    ConstraintPiecesEnd();
    ConstraintAction(Constraint, AfterDelete);
  }

  // ---------------------------------------------------------------------------------------
  // The whole statement

  /** An expression that begins with a comma does not match where there is none. */
  lemma NoCommaNoMatch(v: string)
    requires v != [] && v[0] != ','
    ensures ForeignKeyConstraint(v).None? && ForeignKeyIndex(v).None?
    ensures DoubleComma(v).None? && TrailingComma(v).None?
  {
  }

  /** A matcher that only matches at a comma. */
  ghost predicate NeedsComma(m: string -> Option<nat>) {
    forall v :: v != [] && v[0] != ',' ==> m(v).None?
  }

  lemma KeyExpressionsNeedComma()
    ensures NeedsComma(ForeignKeyConstraint) && NeedsComma(ForeignKeyIndex)
    ensures NeedsComma(DoubleComma) && NeedsComma(TrailingComma)
  {
    forall v | v != [] && v[0] != ','
      ensures ForeignKeyConstraint(v).None? && ForeignKeyIndex(v).None?
      ensures DoubleComma(v).None? && TrailingComma(v).None?
    {
      NoCommaNoMatch(v);
    }
  }

  /** Before a text `c`, a stretch `a` without a comma is copied. */
  lemma CommaFreeCopied(m: string -> Option<nat>, repl: string, a: string, c: string)
    requires IsMatcher(m) && NeedsComma(m) && ',' !in a
    ensures Sub(m, repl, a + c) == a + Sub(m, repl, c)
  {
    var u := a + c;
    forall j | 0 <= j < |a|
      ensures m(u[j..]).None?
    {
      assert u[j..][0] == a[j];
    }
    CopiedThrough(m, repl, u, |a|);
    assert u[..|a|] == a && u[|a|..] == c;
  }

  /** A match that takes all of `c` leaves nothing of it. */
  lemma WholeMatchRemoved(m: string -> Option<nat>, c: string)
    requires IsMatcher(m) && c != [] && m(c) == Some(|c|)
    ensures Sub(m, "", c) == []
  {
    assert c[|c|..] == [];
  }

  /** A piece that fails stops the pieces after it. */
  lemma StepFails(x: Piece, rest: seq<Piece>, u: string, i: nat)
    requires i <= |u| && Step(x, u, i).None?
    ensures Steps([x] + rest, u, i).None?
  {
    assert ([x] + rest)[0] == x;
  }

  /** Pieces that fail stop the pieces after them. */
  lemma StepsPrefixFails(p: seq<Piece>, q: seq<Piece>, u: string, i: nat)
    requires i <= |u| && Steps(p, u, i).None?
    ensures Steps(p + q, u, i).None?
    decreases |p|
  {
    var j := Step(p[0], u, i);
    assert (p + q)[0] == p[0] && (p + q)[1..] == p[1..] + q;
    if j.Some? {
      StepsPrefixFails(p[1..], q, u, j.value);
    }
  }

  /** An index is not a constraint: `KEY` is not `CONSTRAINT`. */
  lemma IndexIsNoConstraint(v: string)
    requires 2 <= |v| && v[0] == ',' && v[1] == 'K'
    ensures ForeignKeyConstraint(v).None?
  {
    assert v[0..] == v && v[1..][0] == 'K';
    StepOn(Sym(','), [Blanks0] + ([Key("CONSTRAINT")] + ([Blanks1] + ([Sym('`')] + [Upto('`')]))), v, 0, 1);
    NoBlankAt(v, 1);
    StepOn(Blanks0, [Key("CONSTRAINT")] + ([Blanks1] + ([Sym('`')] + [Upto('`')])), v, 1, 1);
    assert !SameLetter(v[1..][0], "CONSTRAINT"[0]);
    StepFails(Key("CONSTRAINT"), [Blanks1] + ([Sym('`')] + [Upto('`')]), v, 1);
    ConstraintPiecesSplit();
    StepsPrefixFails(NamePieces, ColumnPieces + (ReferencePieces + TargetPieces), v, 0);
  }

  /** The index's pieces, written as the first piece and the rest. */
  const IndexSteps: seq<Piece> := [Sym(',')] + ([Blanks0] + ([Key("KEY")] + ([Blanks1] + ([Key("`fk_")]
    + ([Upto('`')] + ([Blanks0] + ([Sym('(')] + [Upto(')')])))))))

  lemma IndexPiecesAgree()
    ensures IndexPieces == IndexSteps
  {
  }

  /** Line 161 matches a `KEY` named `fk_<name>` on one column, as a whole. */
  lemma IndexMatches(u: string, name: string, col: string)
    requires u == "," + ("KEY" + (" " + ("`fk_" + (name + ("`" + (" " + ("(" + (col + ")"))))))))
    requires name != [] && '`' !in name && col != [] && ')' !in col
    ensures ForeignKeyIndex(u) == Some(|u|)
  {
    var w9 := name + ("`" + (" " + ("(" + (col + ")"))));
    var w1 := "KEY" + (" " + ("`fk_" + w9));
    assert u[0..] == u;
    var n, c := |name|, |col|;
    SymAt(u, 0, ',', w1);
    StepOn(Sym(','), [Blanks0] + ([Key("KEY")] + ([Blanks1] + ([Key("`fk_")]
      + ([Upto('`')] + ([Blanks0] + ([Sym('(')] + [Upto(')')])))))), u, 0, 1);
    NoBlankAt(u, 1);
    StepOn(Blanks0, [Key("KEY")] + ([Blanks1] + ([Key("`fk_")]
      + ([Upto('`')] + ([Blanks0] + ([Sym('(')] + [Upto(')')]))))), u, 1, 1);
    KeyAt(u, 1, "KEY", " " + ("`fk_" + w9));
    StepOn(Key("KEY"), [Blanks1] + ([Key("`fk_")]
      + ([Upto('`')] + ([Blanks0] + ([Sym('(')] + [Upto(')')])))), u, 1, 4);
    BlankAt(u, 4, "`fk_" + w9);
    StepOn(Blanks1, [Key("`fk_")] + ([Upto('`')] + ([Blanks0] + ([Sym('(')] + [Upto(')')]))), u, 4, 5);
    KeyAt(u, 5, "`fk_", w9);
    StepOn(Key("`fk_"), [Upto('`')] + ([Blanks0] + ([Sym('(')] + [Upto(')')])), u, 5, 9);
    IndexTail(u, 9, name, col);
    IndexPiecesAgree();
  }

  /** `` name` (col) `` from `i` to the end. */
  lemma IndexTail(u: string, i: nat, name: string, col: string)
    requires i <= |u| && u[i..] == name + ("`" + (" " + ("(" + (col + ")"))))
    requires name != [] && '`' !in name && col != [] && ')' !in col
    ensures Steps([Upto('`')] + ([Blanks0] + ([Sym('(')] + [Upto(')')])), u, i) == Some(|u|)
  {
    var j := i + |name| + 1;
    UptoAt(u, i, name, '`', " " + ("(" + (col + ")")));
    StepOn(Upto('`'), [Blanks0] + ([Sym('(')] + [Upto(')')]), u, i, j);
    IndexBlankColumn(u, j, col);
  }

  /** ` (col)` from `i` to the end. */
  lemma IndexBlankColumn(u: string, i: nat, col: string)
    requires i <= |u| && u[i..] == " " + ("(" + (col + ")")) && col != [] && ')' !in col
    ensures Steps([Blanks0] + ([Sym('(')] + [Upto(')')]), u, i) == Some(|u|)
  {
    BlankAt(u, i, "(" + (col + ")"));
    StepOn(Blanks0, [Sym('(')] + [Upto(')')], u, i, i + 1);
    IndexColumn(u, i + 1, col);
  }

  /** `(col)` from `i` to the end. */
  lemma IndexColumn(u: string, i: nat, col: string)
    requires i <= |u| && u[i..] == "(" + (col + ")") && col != [] && ')' !in col
    ensures Steps([Sym('(')] + [Upto(')')], u, i) == Some(|u|)
  {
    SymAt(u, i, '(', col + ")");
    StepOn(Sym('('), [Upto(')')], u, i, i + 1);
    UptoAt(u, i + 1, col, ')', []);
    StepOn(Upto(')'), [], u, i + 1, i + |col| + 2);
    assert [Upto(')')] + [] == [Upto(')')];
  }

  /**
   * Past a stretch without a comma and a definition with one leading comma that it does not
   * match, a matcher takes all of `c`.
   */
  lemma RemovedAfter(m: string -> Option<nat>, a: string, b: string, c: string)
    requires IsMatcher(m) && NeedsComma(m) && ',' !in a
    requires b != [] && ',' !in b[1..] && m(b + c).None? && c != [] && m(c) == Some(|c|)
    ensures Sub(m, "", a + (b + c)) == a + b
  {
    CommaFreeCopied(m, "", a, b + c);
    UnmatchedFront(m, "", b, c);
    CommaFreeCopied(m, "", b[1..], c);
    WholeMatchRemoved(m, c);
    assert [b[0]] + (b[1..] + []) == b;
  }

  lemma ConstraintRemovedAfter(a: string, b: string, c: string)
    requires ',' !in a && b != [] && ',' !in b[1..] && c != []
    requires ForeignKeyConstraint(b + c).None? && ForeignKeyConstraint(c) == Some(|c|)
    ensures Sub(ForeignKeyConstraint, "", a + (b + c)) == a + b
  {
    KeyExpressionsNeedComma();
    RemovedAfter(ForeignKeyConstraint, a, b, c);
  }

  /** Where nothing matches, the first character is copied. */
  lemma UnmatchedFront(m: string -> Option<nat>, repl: string, b: string, c: string)
    requires IsMatcher(m) && b != [] && m(b + c).None?
    ensures Sub(m, repl, b + c) == [b[0]] + Sub(m, repl, b[1..] + c)
  {
    assert (b + c)[1..] == b[1..] + c;
  }

  lemma IndexHasOneComma()
    ensures FkIndex != [] && FkIndex[0] == ',' && ',' !in FkIndex[1..]
  {
  }

  /** Line 156 takes the constraint, from its comma to the end of the text. */
  lemma ConstraintRemoved(cols: string)
    requires ',' !in cols
    ensures Sub(ForeignKeyConstraint, "", cols + (FkIndex + Constraint)) == cols + FkIndex
  {
    IndexIsNoConstraint(FkIndex + Constraint);
    ConstraintTakesTail();
    IndexHasOneComma();
    ConstraintRemovedAfter(cols, FkIndex, Constraint);
  }

  /** Line 161 then takes an index that it matches whole; lines 165-166 find nothing to repair. */
  lemma IndexDropped(cols: string, ix: string, rest: string)
    requires ',' !in cols && ix != [] && ForeignKeyIndex(ix) == Some(|ix|)
    requires Sub(ForeignKeyConstraint, "", cols + (ix + rest)) == cols + ix
    ensures DropForeignKeys(cols + (ix + rest)) == cols
  {
    KeyExpressionsNeedComma();
    CommaFreeCopied(ForeignKeyIndex, "", cols, ix);
    WholeMatchRemoved(ForeignKeyIndex, ix);
    CommaFreeCopied(DoubleComma, ",", cols, []);
    CommaFreeCopied(TrailingComma, ")", cols, []);
    assert cols + [] == cols;
  }

  lemma KeysRemoved(cols: string)
    requires ',' !in cols
    ensures DropForeignKeys(cols + (FkIndex + Constraint)) == cols
  {
    ConstraintRemoved(cols);
    IndexMatches(FkIndex, "p", "`p`");
    IndexDropped(cols, FkIndex, Constraint);
  }

  /** A column list that the option rewrites of lines 168-180 leave alone. */
  predicate PlainColumns(cols: string) {
    && ',' !in cols
    && (forall i :: 0 <= i < |cols| ==> Engine(cols[i..]).None? && Charset(cols[i..]).None?)
    && (cols == [] || !IsSpace(cols[|cols| - 1]))
  }

  /** Without an engine clause, lines 175-177 close the columns with the appended options. */
  lemma PlainColumnsGainOptions(cols: string)
    requires PlainColumns(cols)
    ensures PinTableOptions(cols) == cols + TableOptions
  {
    assert !Search(Engine, cols);
    NoEngineGainsOptions(cols);
    SubWithoutMatch(Charset, CharsetClause, cols);
  }

  lemma ColumnsArePlain()
    ensures PlainColumns(Columns)
  {
    var u := Columns;
    forall i | 0 <= i < |u|
      ensures Engine(u[i..]).None? && Charset(u[i..]).None?
    {
      assert u[i..][0] == u[i];
      assert !SameLetter(u[i], 'E') && !SameLetter(u[i], 'D');
    }
  }

  /**
   * `_remove_foreign_keys` on a table whose last definition is a foreign-key constraint with
   * an `ON DELETE` action: the action's `[^,]+` swallows `) ENGINE=MyISAM`, so the appended
   * options are what closes the column list, and the table's own engine is gone.
   */
  lemma ActionSwallowsOptions(cols: string)
    requires PlainColumns(cols)
    ensures RemoveForeignKeys(cols + (FkIndex + Constraint)) == cols + TableOptions
  {
    KeysRemoved(cols);
    PlainColumnsGainOptions(cols);
  }

  /** On the statement of `Table`: `(`p` int) ENGINE=InnoDB DEFAULT CHARSET=utf8`. */
  lemma TableRemovesForeignKeys()
    ensures RemoveForeignKeys(Table) == Columns + TableOptions
  {
    ColumnsArePlain();
    ActionSwallowsOptions(Columns);
  }
}
