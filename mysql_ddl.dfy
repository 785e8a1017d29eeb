/**
 * The MySQL adapter's `get_table_structure` and `_remove_foreign_keys`. The latter is a
 * chain of `re.sub` rewrites of the text `SHOW CREATE TABLE` returns, which drops the
 * foreign keys and pins the engine and the character set. Each expression is a matcher
 * giving the length of its match at the front of a text (Python's backtracking order
 * resolved by hand), and `re.sub` is a scan from the left that replaces every match and
 * copies every other character.
 */
module MySqlDdl {
  import opened Common
  import opened Text

  const EngineClause: string := "ENGINE=InnoDB"
  const CharsetClause: string := "DEFAULT CHARSET=utf8"
  const ClosingClause: string := ") ENGINE="
  const TableOptions: string := ") ENGINE=InnoDB DEFAULT CHARSET=utf8"

  /** End of the white-space run at `i`: what a greedy `\s*` consumes. */
  function SpaceEnd(u: string, i: nat): (j: nat)
    requires i <= |u|
    ensures i <= j <= |u|
    ensures forall k :: i <= k < j ==> IsSpace(u[k])
    ensures j == |u| || !IsSpace(u[j])
    decreases |u| - i
  {
    if i < |u| && IsSpace(u[i]) then SpaceEnd(u, i + 1) else i
  }

  lemma SpaceEndAt(u: string, i: nat, j: nat)
    requires i <= j <= |u|
    requires forall k :: i <= k < j ==> IsSpace(u[k])
    requires j == |u| || !IsSpace(u[j])
    ensures SpaceEnd(u, i) == j
  {
  }

  /** End of the word-character run at `i`: what a greedy `\w*` consumes. */
  function WordEnd(u: string, i: nat): (j: nat)
    requires i <= |u|
    ensures i <= j <= |u|
    ensures forall k :: i <= k < j ==> IsWord(u[k])
    ensures j == |u| || !IsWord(u[j])
    decreases |u| - i
  {
    if i < |u| && IsWord(u[i]) then WordEnd(u, i + 1) else i
  }

  /** End of the run at `i` of characters other than `stop`: what a greedy `[^stop]*` consumes. */
  function RunEnd(u: string, i: nat, stop: char): (j: nat)
    requires i <= |u|
    ensures i <= j <= |u|
    ensures forall k :: i <= k < j ==> u[k] != stop
    ensures j == |u| || u[j] == stop
    decreases |u| - i
  {
    if i < |u| && u[i] != stop then RunEnd(u, i + 1, stop) else i
  }

  /**
   * One element of an expression that Python's engine matches without backtracking: every
   * run is followed by something its characters cannot be, so the greedy match is the only one.
   */
  datatype Piece =
    | Sym(c: char)            // that punctuation character
    | Key(lit: string)        // a keyword, without regard to case
    | Blanks0                 // `\s*`
    | Blanks1                 // `\s+`
    | Upto(close: char)       // `[^close]+close`

  function Step(piece: Piece, u: string, i: nat): (r: Option<nat>)
    requires i <= |u|
    ensures r.Some? ==> i <= r.value <= |u|
  {
    match piece
    case Sym(c) => if i < |u| && u[i] == c then Some(i + 1) else None
    case Key(lit) => if StartsWithIgnoringCase(u[i..], lit) then Some(i + |lit|) else None
    case Blanks0 => Some(SpaceEnd(u, i))
    case Blanks1 => if i < SpaceEnd(u, i) then Some(SpaceEnd(u, i)) else None
    case Upto(close) =>
      var j := RunEnd(u, i, close);
      if i < j < |u| then Some(j + 1) else None
  }

  /** The pieces one after the other, from `i`. */
  function Steps(pieces: seq<Piece>, u: string, i: nat): (r: Option<nat>)
    requires i <= |u|
    ensures r.Some? ==> i <= r.value <= |u|
    decreases |pieces|
  {
    if pieces == [] then Some(i)
    else
      var j :- Step(pieces[0], u, i);
      Steps(pieces[1..], u, j)
  }

  /** Pieces that start with a punctuation character, matched at the front of `u`. */
  function PiecesEnd(pieces: seq<Piece>, u: string): (r: Option<nat>)
    requires pieces != [] && pieces[0].Sym?
    ensures r.Some? ==> 0 < r.value <= |u|
  {
    var j :- Step(pieces[0], u, 0);
    Steps(pieces[1..], u, j)
  }

  /** `,\s*CONSTRAINT\s+`..`\s+FOREIGN\s+KEY\s*\(..\)\s+REFERENCES\s+`..`\s*\(..\)\s*` */
  const ConstraintPieces: seq<Piece> := [
    Sym(','), Blanks0, Key("CONSTRAINT"), Blanks1, Sym('`'), Upto('`'), Blanks1,
    Key("FOREIGN"), Blanks1, Key("KEY"), Blanks0, Sym('('), Upto(')'), Blanks1,
    Key("REFERENCES"), Blanks1, Sym('`'), Upto('`'), Blanks0, Sym('('), Upto(')'), Blanks0]

  /** `,\s*KEY\s+`fk_..`\s*\(..\)` */
  const IndexPieces: seq<Piece> := [
    Sym(','), Blanks0, Key("KEY"), Blanks1, Key("`fk_"), Upto('`'), Blanks0, Sym('('), Upto(')')]

  /**
   * `ON\s+<action>\s+[^,]+` at `i`. The greedy `\s+` after the action gives one blank back
   * when `[^,]+` finds a comma or the end right after the blanks, so the group matches when
   * a blank follows the action and at least two characters other than a comma do, and it
   * always ends at the next comma or at the end of the text.
   */
  function ActionClause(u: string, i: nat, action: string): (r: Option<nat>)
    requires i <= |u|
    ensures r.Some? ==> i < r.value <= |u|
    ensures r.Some? ==> r.value == |u| || u[r.value] == ','
  {
    var c :- Steps([Key("ON"), Blanks1, Key(action)], u, i);
    if c < |u| && IsSpace(u[c]) && RunEnd(u, c, ',') >= c + 2 then Some(RunEnd(u, c, ',')) else None
  }

  /**
   * Line 156: the foreign-key constraint clause with its leading comma, then an ON DELETE
   * action; only when there is none can an ON UPDATE action follow, since an ON DELETE
   * action runs to the next comma.
   */
  function ForeignKeyConstraint(u: string): (r: Option<nat>)
    ensures r.Some? ==> 0 < r.value <= |u|
  {
    var w :- PiecesEnd(ConstraintPieces, u);
    match ActionClause(u, w, "DELETE")
    case Some(x) => Some(x)
    case None => Some(ActionClause(u, w, "UPDATE").GetOr(w))
  }

  /** Line 161: a `KEY` whose name starts with `fk_`, with its leading comma. */
  function ForeignKeyIndex(u: string): (r: Option<nat>)
    ensures r.Some? ==> 0 < r.value <= |u|
  {
    PiecesEnd(IndexPieces, u)
  }

  /** Line 165: `,\s*,`. */
  function DoubleComma(u: string): (r: Option<nat>)
    ensures r.Some? ==> 0 < r.value <= |u|
  {
    PiecesEnd([Sym(','), Blanks0, Sym(',')], u)
  }

  /** Line 166: `,\s*\)`. */
  function TrailingComma(u: string): (r: Option<nat>)
    ensures r.Some? ==> 0 < r.value <= |u|
  {
    PiecesEnd([Sym(','), Blanks0, Sym(')')], u)
  }

  /** Line 169: `DEFAULT`, blanks, `CHARSET=` and a word; the match runs to the end of the word. */
  function Charset(u: string): (r: Option<nat>)
    ensures r.Some? <==>
      && StartsWithIgnoringCase(u, "DEFAULT")
      && var j := SpaceEnd(u, 7);
      && 7 < j && j + 8 < |u| && StartsWithIgnoringCase(u[j..], "CHARSET=") && IsWord(u[j + 8])
    ensures r.Some? ==> 0 < r.value <= |u| && (r.value == |u| || !IsWord(u[r.value]))
  {
    if StartsWithIgnoringCase(u, "DEFAULT") then
      var j := SpaceEnd(u, 7);
      if 7 < j && j + 8 < |u| && StartsWithIgnoringCase(u[j..], "CHARSET=") && IsWord(u[j + 8])
      then Some(WordEnd(u, j + 8))
      else None
    else None
  }

  /** Lines 172 and 175: `ENGINE=` and a word; the match runs to the end of the word. */
  function Engine(u: string): (r: Option<nat>)
    ensures r.Some? <==> StartsWithIgnoringCase(u, "ENGINE=") && 7 < |u| && IsWord(u[7])
    ensures r.Some? ==> 0 < r.value <= |u| && (r.value == |u| || !IsWord(u[r.value]))
  {
    if StartsWithIgnoringCase(u, "ENGINE=") && 7 < |u| && IsWord(u[7]) then Some(WordEnd(u, 7)) else None
  }

  /** Line 180: `)`, blanks, `ENGINE=`. */
  function ClosingEngine(u: string): (r: Option<nat>)
    ensures r.Some? <==> 0 < |u| && u[0] == ')' && StartsWithIgnoringCase(u[SpaceEnd(u, 1)..], "ENGINE=")
    ensures r.Some? ==> r.value == SpaceEnd(u, 1) + 7 <= |u|
  {
    if 0 < |u| && u[0] == ')' && StartsWithIgnoringCase(u[SpaceEnd(u, 1)..], "ENGINE=")
    then Some(SpaceEnd(u, 1) + 7)
    else None
  }

  /** A compiled expression: the length of its match at the front of a text, never empty. */
  ghost predicate IsMatcher(m: string -> Option<nat>) {
    forall v :: m(v).Some? ==> 0 < m(v).value <= |v|
  }

  /** `re.sub(m, repl, u)`: every match, left to right and not overlapping, becomes `repl`. */
  function Sub(m: string -> Option<nat>, repl: string, u: string): string
    requires IsMatcher(m)
    decreases |u|
  {
    if u == [] then []
    else match m(u)
      case Some(n) => repl + Sub(m, repl, u[n..])
      case None => [u[0]] + Sub(m, repl, u[1..])
  }

  /** `re.search(m, u)` finds something: the expression matches at some position. */
  function Search(m: string -> Option<nat>, u: string): (found: bool)
    ensures found <==> exists i :: 0 <= i < |u| && m(u[i..]).Some?
    decreases |u|
  {
    if u == [] then false
    else if m(u).Some? then (assert u[0..] == u; true)
    else
      assert forall i :: 1 <= i < |u| ==> u[1..][i - 1..] == u[i..];
      Search(m, u[1..])
  }

  /** Lines 154-166: drop the constraint clauses and the `fk_` keys, then tidy the commas. */
  function DropForeignKeys(sql: string): string {
    var noConstraints := Sub(ForeignKeyConstraint, "", sql);
    var noIndexes := Sub(ForeignKeyIndex, "", noConstraints);
    var noDoubled := Sub(DoubleComma, ",", noIndexes);
    Sub(TrailingComma, ")", noDoubled)
  }

  /** Lines 168-180: pin the character set and the engine, then put the engine after `)`. */
  function PinTableOptions(s: string): string {
    var charset := Sub(Charset, CharsetClause, s);
    var engine := Sub(Engine, EngineClause, charset);
    if !Search(Engine, engine) then RStrip(engine) + TableOptions
    else Sub(ClosingEngine, ClosingClause, engine)
  }

  function RemoveForeignKeys(sql: string): string {
    PinTableOptions(DropForeignKeys(sql))
  }

  // ---------------------------------------------------------------------------------------
  // What a rewrite copies

  /** A text without any match passes `re.sub` unchanged. */
  lemma {:induction false} SubWithoutMatch(m: string -> Option<nat>, repl: string, u: string)
    requires IsMatcher(m)
    requires forall i :: 0 <= i < |u| ==> m(u[i..]).None?
    ensures Sub(m, repl, u) == u
    decreases |u|
  {
    if u != [] {
      assert u[0..] == u;
      forall i | 0 <= i < |u| - 1
        ensures m(u[1..][i..]).None?
      {
        assert u[1..][i..] == u[i + 1..];
      }
      SubWithoutMatch(m, repl, u[1..]);
    }
  }

  /** A statement without any of the four foreign-key expressions passes lines 154-166 unchanged. */
  lemma DropForeignKeysWithoutKeys(sql: string)
    requires forall i :: 0 <= i < |sql| ==> ForeignKeyConstraint(sql[i..]).None? && ForeignKeyIndex(sql[i..]).None?
    requires forall i :: 0 <= i < |sql| ==> DoubleComma(sql[i..]).None? && TrailingComma(sql[i..]).None?
    ensures DropForeignKeys(sql) == sql
  {
    SubWithoutMatch(ForeignKeyConstraint, "", sql);
    SubWithoutMatch(ForeignKeyIndex, "", sql);
    SubWithoutMatch(DoubleComma, ",", sql);
    SubWithoutMatch(TrailingComma, ")", sql);
  }

  /** The first `k` characters are copied when no match starts among them. */
  lemma {:induction false} CopiedThrough(m: string -> Option<nat>, repl: string, u: string, k: nat)
    requires IsMatcher(m)
    requires k <= |u|
    requires forall j :: 0 <= j < k ==> m(u[j..]).None?
    ensures Sub(m, repl, u) == u[..k] + Sub(m, repl, u[k..])
    decreases k
  {
    assert u[0..] == u;
    if k > 0 {
      forall j | 0 <= j < k - 1
        ensures m(u[1..][j..]).None?
      {
        assert u[1..][j..] == u[j + 1..];
      }
      CopiedThrough(m, repl, u[1..], k - 1);
      assert u[1..][k - 1..] == u[k..];
      assert u[..k] == [u[0]] + u[1..][..k - 1];
    }
  }

  /** `v` cannot be the front of `repl`: they differ in their first or their second character. */
  predicate Clashes(repl: string, v: string) {
    repl != [] && v != [] && (v[0] != repl[0] || (1 < |v| && 1 < |repl| && v[1] != repl[1]))
  }

  /**
   * When the output starts with `prefix` and no replacement can begin inside `prefix`,
   * the input starts with the same characters and they were copied.
   */
  lemma {:induction false} CopiedPrefix(m: string -> Option<nat>, repl: string, u: string, prefix: string)
    requires IsMatcher(m)
    requires |prefix| <= |Sub(m, repl, u)| && Sub(m, repl, u)[..|prefix|] == prefix
    requires forall k :: 0 <= k < |prefix| ==> Clashes(repl, prefix[k..])
    ensures |prefix| <= |u| && u[..|prefix|] == prefix
    ensures Sub(m, repl, u) == prefix + Sub(m, repl, u[|prefix|..])
    decreases |prefix|
  {
    assert u[0..] == u;
    if prefix != [] {
      assert prefix[0..] == prefix;
      FrontCopied(m, repl, u, prefix);
      var rest := Sub(m, repl, u[1..]);
      forall k | 0 <= k < |prefix| - 1
        ensures Clashes(repl, prefix[1..][k..])
      {
        assert prefix[1..][k..] == prefix[k + 1..];
      }
      CopiedPrefix(m, repl, u[1..], prefix[1..]);
      assert u[1..][|prefix| - 1..] == u[|prefix|..];
      ConsBoth(u, prefix, rest, Sub(m, repl, u[|prefix|..]));
    }
  }

  /** Where the output starts with a text that clashes with the replacement, the first character was copied. */
  lemma FrontCopied(m: string -> Option<nat>, repl: string, u: string, prefix: string)
    requires IsMatcher(m) && u != [] && prefix != []
    requires |prefix| <= |Sub(m, repl, u)| && Sub(m, repl, u)[..|prefix|] == prefix
    requires Clashes(repl, prefix)
    ensures m(u).None? && Sub(m, repl, u) == [u[0]] + Sub(m, repl, u[1..]) && u[0] == prefix[0]
  {
    if m(u).Some? {
      ReplacementClash(m, repl, u, prefix);
    }
    assert Sub(m, repl, u)[0] == Sub(m, repl, u)[..|prefix|][0];
  }

  lemma ConsBoth(u: string, prefix: string, rest: string, tail: string)
    requires u != [] && prefix != [] && u[0] == prefix[0]
    requires |prefix| - 1 <= |u[1..]| && u[1..][..|prefix| - 1] == prefix[1..]
    requires rest == prefix[1..] + tail
    ensures |prefix| <= |u| && u[..|prefix|] == prefix
    ensures [u[0]] + rest == prefix + tail
  {
    assert u[..|prefix|] == [u[0]] + u[1..][..|prefix| - 1];
    assert prefix == [prefix[0]] + prefix[1..];
  }

  /** An output that starts with a replacement does not start with text that clashes with it. */
  lemma ReplacementClash(m: string -> Option<nat>, repl: string, u: string, prefix: string)
    requires IsMatcher(m)
    requires u != [] && m(u).Some?
    requires |prefix| <= |Sub(m, repl, u)| && Sub(m, repl, u)[..|prefix|] == prefix
    ensures !Clashes(repl, prefix)
  {
    var out := Sub(m, repl, u);
    assert out == repl + Sub(m, repl, u[m(u).value..]);
    if repl != [] && prefix != [] {
      assert prefix[0] == out[0] == repl[0];
      if 1 < |prefix| && 1 < |repl| {
        assert prefix[1] == out[1] == repl[1];
      }
    }
  }

  /** Where `m` does not match at the front, the first character is copied. */
  lemma SkipFront(m: string -> Option<nat>, repl: string, u: string, s: nat)
    requires IsMatcher(m)
    requires s <= 1 && s <= |u|
    requires s == 1 ==> m(u).None?
    ensures Sub(m, repl, u) == u[..s] + Sub(m, repl, u[s..])
  {
    if s == 1 {
      assert u[..1] == [u[0]];
    } else {
      assert u[..0] == [] && u[0..] == u;
    }
  }

  lemma SliceOfConcat(a: string, b: string, i: nat)
    requires i <= |a|
    ensures (a + b)[i..] == a[i..] + b
  {
  }

  lemma HeadOfConcat(a: string, b: string)
    ensures (a + b)[..|a|] == a
  {
  }

  lemma SliceOfJoin(out: string, a: string, t: string, e: nat)
    requires out == a + t && |a| <= e <= |out|
    ensures t[..e - |a|] == out[|a|..e]
  {
  }

  lemma JoinPrefix(u: string, out: string, s: nat, e: nat)
    requires s <= e <= |u| && e <= |out|
    requires u[..s] == out[..s] && u[s..][..e - s] == out[s..e]
    ensures u[..e] == out[..e]
  {
    assert u[..e] == u[..s] + u[s..][..e - s];
    assert out[..e] == out[..s] + out[s..e];
  }

  // ---------------------------------------------------------------------------------------
  // What a rewrite is known to do

  /** `m` matches only texts that start with a word character exactly when `repl` does. */
  ghost predicate FrontWord(m: string -> Option<nat>, repl: string) {
    && IsMatcher(m)
    && 1 < |repl|
    && forall v :: m(v).Some? ==> (IsWord(v[0]) <==> IsWord(repl[0]))
  }

  /** A match of `m` runs to the end of a word. */
  ghost predicate Maximal(m: string -> Option<nat>)
    requires IsMatcher(m)
  {
    forall v :: m(v).Some? ==> m(v).value == |v| || !IsWord(v[m(v).value])
  }

  /** The rewrite never makes `m` match at the front of its output where it did not match in the input. */
  ghost predicate BackSame(m: string -> Option<nat>, repl: string)
    requires IsMatcher(m)
  {
    forall u :: m(u).None? ==> m(Sub(m, repl, u)).None?
  }

  /** The rewrite makes `q` match at the front of its output only where `q` matches in the input. */
  ghost predicate BackCross(m: string -> Option<nat>, repl: string, q: string -> Option<nat>)
    requires IsMatcher(m)
  {
    forall u :: q(Sub(m, repl, u)).Some? ==> q(u).Some?
  }

  /** `m` never matches at a position inside `c`. */
  ghost predicate NoMatchIn(m: string -> Option<nat>, c: string) {
    forall k, w :: 0 <= k < |c| ==> m(c[k..] + w).None?
  }

  /** `q` never matches at a position inside the replacement text after its first character. */
  ghost predicate InsideNone(repl: string, q: string -> Option<nat>) {
    forall i, w :: 0 < i < |repl| ==> q(repl[i..] + w).None?
  }

  /** A rewrite starts its output with a word character only where the input has one. */
  lemma WordAfter(m: string -> Option<nat>, repl: string, v: string)
    requires FrontWord(m, repl)
    requires Sub(m, repl, v) != [] && IsWord(Sub(m, repl, v)[0])
    ensures v != [] && IsWord(v[0])
  {
  }

  /** ... and a non-word character or the end only where the input has one. */
  lemma NonWordAfter(m: string -> Option<nat>, repl: string, v: string)
    requires FrontWord(m, repl)
    requires v == [] || !IsWord(v[0])
    ensures Sub(m, repl, v) == [] || !IsWord(Sub(m, repl, v)[0])
  {
  }

  // ---------------------------------------------------------------------------------------
  // Letters

  lemma EngineFront(v: string)
    requires Engine(v).Some?
    ensures 7 < |v| && SameLetter(v[0], 'E') && SameLetter(v[1], 'N') && IsWord(v[7])
  {
    assert SameLetter(v[0], "ENGINE="[0]) && SameLetter(v[1], "ENGINE="[1]);
  }

  lemma CharsetFront(v: string)
    requires Charset(v).Some?
    ensures 1 < |v| && SameLetter(v[0], 'D') && SameLetter(v[1], 'E')
  {
    assert SameLetter(v[0], "DEFAULT"[0]) && SameLetter(v[1], "DEFAULT"[1]);
  }

  /**
   * From position `i` on, `c` never holds a letter like `x` followed by one like `y`, and
   * it does not end with a letter like `x`.
   */
  predicate NoHeadFrom(c: string, i: nat, x: char, y: char)
    decreases |c| - i
  {
    i >= |c| || ((!SameLetter(c[i], x) || (i + 1 < |c| && !SameLetter(c[i + 1], y))) && NoHeadFrom(c, i + 1, x, y))
  }

  lemma {:induction false} NoHeadAt(c: string, i: nat, x: char, y: char, k: nat)
    requires NoHeadFrom(c, i, x, y) && i <= k < |c|
    ensures !SameLetter(c[k], x) || (k + 1 < |c| && !SameLetter(c[k + 1], y))
    decreases k - i
  {
    if i < k {
      NoHeadAt(c, i + 1, x, y, k);
    }
  }

  /** The first two characters of `c[k..] + w`, where they come from `c`. */
  lemma FrontOf(c: string, k: nat, w: string)
    requires k < |c|
    ensures (c[k..] + w)[0] == c[k]
    ensures k + 1 < |c| ==> (c[k..] + w)[1] == c[k + 1]
  {
  }

  lemma NoEngineInside(c: string, i: nat, k: nat, w: string)
    requires NoHeadFrom(c, i, 'E', 'N') && i <= k < |c|
    ensures Engine(c[k..] + w).None?
  {
    NoHeadAt(c, i, 'E', 'N', k);
    FrontOf(c, k, w);
    if Engine(c[k..] + w).Some? {
      EngineFront(c[k..] + w);
    }
  }

  lemma NoCharsetInside(c: string, i: nat, k: nat, w: string)
    requires NoHeadFrom(c, i, 'D', 'E') && i <= k < |c|
    ensures Charset(c[k..] + w).None?
  {
    NoHeadAt(c, i, 'D', 'E', k);
    FrontOf(c, k, w);
    if Charset(c[k..] + w).Some? {
      CharsetFront(c[k..] + w);
    }
  }

  /**
   * A text that agrees with `lit` letter for letter does not start, at any position from
   * `i0` on, with the first two characters of `repl`.
   */
  lemma TextClash(t: string, lit: string, repl: string, i0: nat, i: nat, e: nat)
    requires 1 < |repl|
    requires StartsWithIgnoringCase(t, lit) && NoHeadFrom(lit, i0, repl[0], repl[1])
    requires i0 <= i < |lit| <= e <= |t|
    ensures Clashes(repl, t[i..e])
  {
    NoHeadAt(lit, i0, repl[0], repl[1], i);
    assert t[i..e][0] == t[i] && SameLetter(t[i], lit[i]);
    if i + 1 < |lit| {
      assert t[i..e][1] == t[i + 1] && SameLetter(t[i + 1], lit[i + 1]);
    }
  }

  // ---------------------------------------------------------------------------------------
  // A match in the output was a match in the input

  lemma EngineSamePrefix(v: string, u: string)
    requires Engine(v).Some?
    requires 7 < |u| && u[..7] == v[..7] && IsWord(u[7])
    ensures Engine(u).Some?
  {
    forall k | 0 <= k < 7 ensures SameLetter(u[k], "ENGINE="[k]) {
      assert u[k] == u[..7][k];
    }
  }

  lemma EnginePrefixClashes(out: string, repl: string, s: nat)
    requires Engine(out).Some? && 1 < |repl| && s <= 1
    requires NoHeadFrom("ENGINE=", s, repl[0], repl[1])
    ensures forall k :: 0 <= k < |out[s..7]| ==> Clashes(repl, out[s..7][k..])
  {
    forall k | 0 <= k < |out[s..7]| ensures Clashes(repl, out[s..7][k..]) {
      TextClash(out, "ENGINE=", repl, s, s + k, 7);
      assert out[s..7][k..] == out[s + k..7];
    }
  }

  /** A rewrite that cannot start inside `ENGINE=` (after position `s`) makes no new engine. */
  lemma EngineBack(m: string -> Option<nat>, repl: string, u: string, s: nat)
    requires FrontWord(m, repl)
    requires s <= 1 && (s == 1 ==> u != [] && m(u).None?)
    requires NoHeadFrom("ENGINE=", s, repl[0], repl[1])
    requires Engine(Sub(m, repl, u)).Some?
    ensures Engine(u).Some?
  {
    var out := Sub(m, repl, u);
    EngineFront(out);
    assert u != [];
    SkipFront(m, repl, u, s);
    EnginePrefixClashes(out, repl, s);
    SliceOfJoin(out, u[..s], Sub(m, repl, u[s..]), 7);
    CopiedPrefix(m, repl, u[s..], out[s..7]);
    CopiedRest(m, repl, u, out, s, 7);
    EngineSamePrefix(out, u);
  }

  lemma CharsetSamePrefix(v: string, u: string)
    requires Charset(v).Some?
    requires SpaceEnd(v, 7) + 8 < |u| && u[..SpaceEnd(v, 7) + 8] == v[..SpaceEnd(v, 7) + 8]
    requires IsWord(u[SpaceEnd(v, 7) + 8])
    ensures Charset(u).Some?
  {
    var j := SpaceEnd(v, 7);
    forall k | 0 <= k < j + 8 ensures u[k] == v[k] {
      assert u[k] == u[..j + 8][k];
    }
    forall k | 0 <= k < 7 ensures SameLetter(u[k], "DEFAULT"[k]) {
    }
    assert SameLetter(v[j..][0], "CHARSET="[0]);
    SpaceEndAt(u, 7, j);
    forall k | 0 <= k < 8 ensures SameLetter(u[j..][k], "CHARSET="[k]) {
      assert u[j..][k] == u[j + k] == v[j + k] == v[j..][k];
    }
  }

  /** What a replacement must avoid so that it cannot start inside a charset match. */
  predicate CharsetClashFree(repl: string, s: nat) {
    && 1 < |repl|
    && NoHeadFrom("DEFAULT", s, repl[0], repl[1])
    && NoHeadFrom("CHARSET=", 0, repl[0], repl[1])
    && !IsSpace(repl[0])
  }

  lemma CharsetClash(out: string, repl: string, s: nat, x: nat)
    requires Charset(out).Some? && CharsetClashFree(repl, s)
    requires s <= x < SpaceEnd(out, 7) + 8
    ensures Clashes(repl, out[x..SpaceEnd(out, 7) + 8])
  {
    var j := SpaceEnd(out, 7);
    if x < 7 {
      TextClash(out, "DEFAULT", repl, s, x, j + 8);
    } else if x < j {
      assert out[x..j + 8][0] == out[x];
    } else {
      TextClash(out[j..], "CHARSET=", repl, 0, x - j, 8);
      assert out[j..][x - j..8] == out[x..j + 8];
    }
  }

  lemma CharsetPrefixClashes(out: string, repl: string, s: nat)
    requires Charset(out).Some? && CharsetClashFree(repl, s) && s <= 1
    ensures SpaceEnd(out, 7) + 8 <= |out|
    ensures var e := SpaceEnd(out, 7) + 8; forall k :: 0 <= k < e - s ==> Clashes(repl, out[s..e][k..])
  {
    var e := SpaceEnd(out, 7) + 8;
    forall k | 0 <= k < |out[s..e]| ensures Clashes(repl, out[s..e][k..]) {
      CharsetClash(out, repl, s, s + k);
      assert out[s..e][k..] == out[s + k..e];
    }
  }

  /** Once the first `e` characters are known to be copied, the input agrees with the output up to them. */
  lemma CopiedRest(m: string -> Option<nat>, repl: string, u: string, out: string, s: nat, e: nat)
    requires FrontWord(m, repl)
    requires s <= e < |out| && s <= |u|
    requires out == Sub(m, repl, u) && out == u[..s] + Sub(m, repl, u[s..])
    requires e - s <= |u[s..]| && u[s..][..e - s] == out[s..e]
    requires Sub(m, repl, u[s..]) == out[s..e] + Sub(m, repl, u[s..][e - s..])
    requires IsWord(out[e])
    ensures e < |u| && u[..e] == out[..e] && IsWord(u[e])
  {
    assert u[s..][e - s..] == u[e..];
    assert out == u[..s] + out[s..e] + Sub(m, repl, u[e..]);
    assert Sub(m, repl, u[e..])[0] == out[e];
    WordAfter(m, repl, u[e..]);
    JoinPrefix(u, out, s, e);
  }

  /** A rewrite that cannot start inside `DEFAULT CHARSET=` (after position `s`) makes no new charset. */
  lemma CharsetBack(m: string -> Option<nat>, repl: string, u: string, s: nat)
    requires FrontWord(m, repl) && CharsetClashFree(repl, s)
    requires s <= 1 && (s == 1 ==> u != [] && m(u).None?)
    requires Charset(Sub(m, repl, u)).Some?
    ensures Charset(u).Some?
  {
    var out := Sub(m, repl, u);
    CharsetFront(out);
    assert u != [];
    var e := SpaceEnd(out, 7) + 8;
    SkipFront(m, repl, u, s);
    CharsetPrefixClashes(out, repl, s);
    SliceOfJoin(out, u[..s], Sub(m, repl, u[s..]), e);
    CopiedPrefix(m, repl, u[s..], out[s..e]);
    CopiedRest(m, repl, u, out, s, e);
    CharsetSamePrefix(out, u);
  }

  // ---------------------------------------------------------------------------------------
  // The three rewrites of lines 169, 172 and 180

  lemma EngineClauseLetters()
    ensures NoHeadFrom(EngineClause, 1, 'E', 'N') && NoHeadFrom(EngineClause, 1, 'D', 'E')
  {
  }

  lemma CharsetClauseLetters()
    ensures NoHeadFrom(CharsetClause, 0, 'E', 'N') && NoHeadFrom(CharsetClause, 1, 'D', 'E')
  {
    assert NoHeadFrom(CharsetClause, 10, 'E', 'N');
    assert NoHeadFrom(CharsetClause, 10, 'D', 'E');
  }

  lemma ClosingClauseLetters()
    ensures NoHeadFrom(ClosingClause, 3, 'E', 'N') && NoHeadFrom(ClosingClause, 1, 'D', 'E')
  {
  }

  /** What the three replacement texts start with. */
  lemma ReplacementFronts()
    ensures EngineClause[0] == 'E' && EngineClause[1] == 'N'
    ensures CharsetClause[0] == 'D' && CharsetClause[1] == 'E'
    ensures ClosingClause[0] == ')' && ClosingClause[1] == ' '
  {
  }

  /** Where each replacement text could start inside an engine or a charset match. */
  lemma EngineClauseClashes()
    ensures NoHeadFrom("ENGINE=", 1, EngineClause[0], EngineClause[1]) && CharsetClashFree(EngineClause, 0)
  {
    ReplacementFronts();
    assert NoHeadFrom("ENGINE=", 1, 'E', 'N');
    assert NoHeadFrom("DEFAULT", 0, 'E', 'N') && NoHeadFrom("CHARSET=", 0, 'E', 'N');
  }

  lemma CharsetClauseClashes()
    ensures CharsetClashFree(CharsetClause, 1) && NoHeadFrom("ENGINE=", 0, CharsetClause[0], CharsetClause[1])
  {
    ReplacementFronts();
    assert NoHeadFrom("DEFAULT", 1, 'D', 'E') && NoHeadFrom("CHARSET=", 0, 'D', 'E');
    assert NoHeadFrom("ENGINE=", 0, 'D', 'E');
  }

  lemma ClosingClauseClashes()
    ensures NoHeadFrom("ENGINE=", 0, ClosingClause[0], ClosingClause[1]) && CharsetClashFree(ClosingClause, 0)
  {
    ReplacementFronts();
    assert NoHeadFrom("ENGINE=", 0, ')', ' ');
    assert NoHeadFrom("DEFAULT", 0, ')', ' ') && NoHeadFrom("CHARSET=", 0, ')', ' ');
  }

  /** Line 172's rewrite: `ENGINE=<word>` becomes `ENGINE=InnoDB`. */
  lemma EngineRewrite()
    ensures FrontWord(Engine, EngineClause) && Maximal(Engine)
  {
    ReplacementFronts();
    forall v | Engine(v).Some? ensures IsWord(v[0]) { EngineFront(v); }
  }

  lemma EngineRewriteInside()
    ensures InsideNone(EngineClause, Engine) && InsideNone(EngineClause, Charset)
    ensures NoMatchIn(Engine, CharsetClause)
  {
    EngineClauseLetters();
    CharsetClauseLetters();
    forall i, w | 0 < i < |EngineClause| ensures Engine(EngineClause[i..] + w).None? {
      NoEngineInside(EngineClause, 1, i, w);
    }
    forall i, w | 0 < i < |EngineClause| ensures Charset(EngineClause[i..] + w).None? {
      NoCharsetInside(EngineClause, 1, i, w);
    }
    forall k, w | 0 <= k < |CharsetClause| ensures Engine(CharsetClause[k..] + w).None? {
      NoEngineInside(CharsetClause, 0, k, w);
    }
  }

  lemma EngineRewriteBack()
    ensures BackSame(Engine, EngineClause)
  {
    EngineRewrite();
    EngineClauseClashes();
    forall u | Engine(u).None? ensures Engine(Sub(Engine, EngineClause, u)).None? {
      if Engine(Sub(Engine, EngineClause, u)).Some? {
        EngineBack(Engine, EngineClause, u, 1);
      }
    }
  }

  lemma EngineRewriteCharset()
    ensures BackCross(Engine, EngineClause, Charset)
  {
    EngineRewrite();
    EngineClauseClashes();
    forall u | Charset(Sub(Engine, EngineClause, u)).Some? ensures Charset(u).Some? {
      CharsetBack(Engine, EngineClause, u, 0);
    }
  }

  /** Line 169's rewrite: `DEFAULT CHARSET=<word>` becomes `DEFAULT CHARSET=utf8`. */
  lemma CharsetRewrite()
    ensures FrontWord(Charset, CharsetClause) && Maximal(Charset)
  {
    ReplacementFronts();
    forall v | Charset(v).Some? ensures IsWord(v[0]) { CharsetFront(v); }
  }

  lemma CharsetRewriteInside()
    ensures InsideNone(CharsetClause, Charset) && InsideNone(CharsetClause, Engine)
  {
    CharsetClauseLetters();
    forall i, w | 0 < i < |CharsetClause| ensures Charset(CharsetClause[i..] + w).None? {
      NoCharsetInside(CharsetClause, 1, i, w);
    }
    forall i, w | 0 < i < |CharsetClause| ensures Engine(CharsetClause[i..] + w).None? {
      NoEngineInside(CharsetClause, 0, i, w);
    }
  }

  lemma CharsetRewriteBack()
    ensures BackSame(Charset, CharsetClause)
  {
    CharsetRewrite();
    CharsetClauseClashes();
    forall u | Charset(u).None? ensures Charset(Sub(Charset, CharsetClause, u)).None? {
      if Charset(Sub(Charset, CharsetClause, u)).Some? {
        CharsetBack(Charset, CharsetClause, u, 1);
      }
    }
  }

  /** Line 180's rewrite: `)`, blanks and `ENGINE=` become `) ENGINE=`. */
  lemma ClosingRewrite()
    ensures FrontWord(ClosingEngine, ClosingClause)
    ensures InsideNone(ClosingClause, Charset)
  {
    ReplacementFronts();
    ClosingClauseLetters();
    forall i, w | 0 < i < |ClosingClause| ensures Charset(ClosingClause[i..] + w).None? {
      NoCharsetInside(ClosingClause, 1, i, w);
    }
  }

  lemma ClosingRewriteBack()
    ensures BackCross(ClosingEngine, ClosingClause, Engine) && BackCross(ClosingEngine, ClosingClause, Charset)
  {
    ClosingRewrite();
    ClosingClauseClashes();
    forall u | Engine(Sub(ClosingEngine, ClosingClause, u)).Some? ensures Engine(u).Some? {
      EngineBack(ClosingEngine, ClosingClause, u, 0);
    }
    forall u | Charset(Sub(ClosingEngine, ClosingClause, u)).Some? ensures Charset(u).Some? {
      CharsetBack(ClosingEngine, ClosingClause, u, 0);
    }
  }

  /** Line 180's expression needs a `)`, so it never starts inside a text without one. */
  lemma ClosingNoMatch(c: string)
    requires ')' !in c
    ensures NoMatchIn(ClosingEngine, c)
  {
    forall k, w | 0 <= k < |c| ensures ClosingEngine(c[k..] + w).None? {
      FrontOf(c, k, w);
    }
  }

  // ---------------------------------------------------------------------------------------
  // Pinned options

  /** `u` begins with `c`, and a `\w+` could not have gone on past it. */
  predicate Reads(u: string, c: string) {
    |c| <= |u| && u[..|c|] == c && (|u| == |c| || !IsWord(u[|c|]))
  }

  lemma ReadsSuffix(u: string, c: string, k: nat)
    requires Reads(u, c) && k <= |c|
    ensures Reads(u[k..], c[k..])
  {
    assert u[k..][..|c| - k] == u[..|c|][k..];
  }

  lemma ReadsPrepend(a: string, u: string, c: string)
    requires Reads(u, c)
    ensures Reads(a + u, a + c)
  {
    assert (a + u)[..|a + c|] == a + u[..|c|];
    if |u| > |c| {
      assert (a + u)[|a + c|] == u[|c|];
    }
  }

  /** A match of `q` at the front of `v` is exactly the text `c`. */
  predicate Canon(q: string -> Option<nat>, c: string, v: string) {
    q(v).Some? ==> Reads(v, c)
  }

  /** Every match of `q` in `s` is exactly the text `c`. */
  predicate Pinned(q: string -> Option<nat>, c: string, s: string) {
    forall i :: 0 <= i < |s| ==> Canon(q, c, s[i..])
  }

  lemma PinnedSuffix(q: string -> Option<nat>, c: string, s: string, j: nat)
    requires Pinned(q, c, s) && j <= |s|
    ensures Pinned(q, c, s[j..])
  {
    forall i | 0 <= i < |s[j..]| ensures Canon(q, c, s[j..][i..]) {
      assert s[j..][i..] == s[j + i..];
    }
  }

  /** How far the rewrite advances at the front of `u`. */
  function Advance(m: string -> Option<nat>, u: string): (n: nat)
    requires IsMatcher(m) && u != []
    ensures 0 < n <= |u|
  {
    if m(u).Some? then m(u).value else 1
  }

  /** What the rewrite writes for the front of `u`. */
  function HeadOut(m: string -> Option<nat>, repl: string, u: string): string
    requires u != []
  {
    if m(u).Some? then repl else [u[0]]
  }

  lemma SubStep(m: string -> Option<nat>, repl: string, u: string)
    requires IsMatcher(m) && u != []
    ensures Sub(m, repl, u) == HeadOut(m, repl, u) + Sub(m, repl, u[Advance(m, u)..])
  {
  }

  /** Where `m` matches at the front of `u`, every match of `q` starting inside the replacement reads `c`. */
  ghost predicate InsideReads(m: string -> Option<nat>, repl: string, q: string -> Option<nat>, c: string, u: string)
    requires IsMatcher(m)
  {
    u != [] && m(u).Some? ==>
      forall i :: 0 < i < |repl| ==> Canon(q, c, repl[i..] + Sub(m, repl, u[Advance(m, u)..]))
  }

  ghost predicate StepReads(m: string -> Option<nat>, repl: string, q: string -> Option<nat>, c: string, u: string)
    requires IsMatcher(m)
  {
    Canon(q, c, Sub(m, repl, u)) && InsideReads(m, repl, q, c, u)
  }

  lemma StepsSuffix(m: string -> Option<nat>, repl: string, q: string -> Option<nat>, c: string, u: string, n: nat)
    requires IsMatcher(m) && n <= |u|
    requires forall j :: 0 <= j <= |u| ==> StepReads(m, repl, q, c, u[j..])
    ensures forall j :: 0 <= j <= |u[n..]| ==> StepReads(m, repl, q, c, u[n..][j..])
  {
    forall j | 0 <= j <= |u[n..]| ensures StepReads(m, repl, q, c, u[n..][j..]) {
      assert u[n..][j..] == u[n + j..];
    }
  }

  lemma PinnedHead(m: string -> Option<nat>, repl: string, q: string -> Option<nat>, c: string, u: string)
    requires IsMatcher(m) && u != [] && StepReads(m, repl, q, c, u)
    requires Pinned(q, c, Sub(m, repl, u[Advance(m, u)..]))
    ensures Pinned(q, c, Sub(m, repl, u))
  {
    var out := Sub(m, repl, u);
    var head := HeadOut(m, repl, u);
    var rest := Sub(m, repl, u[Advance(m, u)..]);
    SubStep(m, repl, u);
    forall i | 0 <= i < |out| ensures Canon(q, c, out[i..]) {
      if i == 0 {
        assert out[0..] == out;
      } else if i < |head| {
        assert out[i..] == repl[i..] + rest;
      } else {
        assert out[i..] == rest[i - |head|..];
      }
    }
  }

  /** The rewrite pins `q` to `c` in its whole output when its front does so for every suffix of the input. */
  lemma {:induction false} PinnedBySteps(m: string -> Option<nat>, repl: string, q: string -> Option<nat>, c: string, u: string)
    requires IsMatcher(m)
    requires forall j :: 0 <= j <= |u| ==> StepReads(m, repl, q, c, u[j..])
    ensures Pinned(q, c, Sub(m, repl, u))
    decreases |u|
  {
    if u != [] {
      var n := Advance(m, u);
      StepsSuffix(m, repl, q, c, u, n);
      PinnedBySteps(m, repl, q, c, u[n..]);
      assert u[0..] == u;
      PinnedHead(m, repl, q, c, u);
    }
  }

  /** A rewrite that cannot start inside `c` copies a text that reads `c`. */
  lemma Forward(m: string -> Option<nat>, repl: string, u: string, c: string)
    requires FrontWord(m, repl) && NoMatchIn(m, c)
    requires Reads(u, c)
    ensures Reads(Sub(m, repl, u), c)
  {
    forall k | 0 <= k < |c| ensures m(u[k..]).None? {
      assert u[k..] == c[k..] + u[|c|..];
    }
    CopiedThrough(m, repl, u, |c|);
    NonWordAfter(m, repl, u[|c|..]);
  }

  /** The front of a rewrite's output reads `repl` wherever the rewritten expression matches there. */
  lemma OwnHead(m: string -> Option<nat>, repl: string, u: string)
    requires FrontWord(m, repl) && Maximal(m) && BackSame(m, repl)
    ensures Canon(m, repl, Sub(m, repl, u))
  {
    if u != [] && m(u).Some? {
      SubStep(m, repl, u);
      NonWordAfter(m, repl, u[Advance(m, u)..]);
    }
  }

  /** After the rewrite, every match of its own expression is the replacement text. */
  lemma OwnPins(m: string -> Option<nat>, repl: string, u: string)
    requires FrontWord(m, repl) && Maximal(m) && BackSame(m, repl) && InsideNone(repl, m)
    ensures Pinned(m, repl, Sub(m, repl, u))
  {
    forall j | 0 <= j <= |u| ensures StepReads(m, repl, m, repl, u[j..]) {
      OwnHead(m, repl, u[j..]);
    }
    PinnedBySteps(m, repl, m, repl, u);
  }

  /** Where the input pins `q` to a text `m` cannot start inside, so does the front of the output. */
  lemma CrossHead(m: string -> Option<nat>, repl: string, q: string -> Option<nat>, c: string, u: string)
    requires FrontWord(m, repl) && BackCross(m, repl, q) && NoMatchIn(m, c)
    requires IsMatcher(q) && Pinned(q, c, u)
    ensures Canon(q, c, Sub(m, repl, u))
  {
    if q(Sub(m, repl, u)).Some? {
      assert q(u).Some?;
      assert u[0..] == u;
      assert Canon(q, c, u[0..]);
      Forward(m, repl, u, c);
    }
  }

  /** A rewrite keeps what an earlier one pinned. */
  lemma KeepsPins(m: string -> Option<nat>, repl: string, q: string -> Option<nat>, c: string, u: string)
    requires FrontWord(m, repl) && BackCross(m, repl, q) && NoMatchIn(m, c)
    requires IsMatcher(q) && Pinned(q, c, u)
    requires forall j :: 0 <= j <= |u| ==> InsideReads(m, repl, q, c, u[j..])
    ensures Pinned(q, c, Sub(m, repl, u))
  {
    forall j | 0 <= j <= |u| ensures StepReads(m, repl, q, c, u[j..]) {
      PinnedSuffix(q, c, u, j);
      CrossHead(m, repl, q, c, u[j..]);
    }
    PinnedBySteps(m, repl, q, c, u);
  }

  lemma InsideNoneReads(m: string -> Option<nat>, repl: string, q: string -> Option<nat>, c: string, u: string)
    requires IsMatcher(m) && InsideNone(repl, q)
    ensures forall j :: 0 <= j <= |u| ==> InsideReads(m, repl, q, c, u[j..])
  {
  }

  /** `) ENGINE=` ends with the front of `ENGINE=InnoDB`, whose word has no `)`. */
  lemma ClauseParts()
    ensures ClosingClause[2..] == "ENGINE=" && EngineClause == "ENGINE=" + "InnoDB"
    ensures NoMatchIn(ClosingEngine, "InnoDB")
    ensures NoMatchIn(ClosingEngine, EngineClause) && NoMatchIn(ClosingEngine, CharsetClause)
  {
    ClosingNoMatch("InnoDB");
    ClosingNoMatch(EngineClause);
    ClosingNoMatch(CharsetClause);
  }

  /** Where line 180 matched and a word follows, the engine there reads `InnoDB` when the input's engines are pinned. */
  lemma ClosedEngineReads(u: string)
    requires ClosingEngine(u).Some?
    requires SpaceEnd(u, 1) + 7 < |u| && IsWord(u[SpaceEnd(u, 1) + 7])
    requires Canon(Engine, EngineClause, u[SpaceEnd(u, 1)..])
    ensures Reads(u[SpaceEnd(u, 1) + 7..], "InnoDB")
  {
    var w := u[SpaceEnd(u, 1)..];
    assert w[7] == u[SpaceEnd(u, 1) + 7];
    assert Engine(w).Some?;
    ReadsSuffix(w, EngineClause, 7);
    assert w[7..] == u[SpaceEnd(u, 1) + 7..];
  }

  /** After `) ENGINE=` the input's own pinned engine follows, so the match there reads `ENGINE=InnoDB`. */
  lemma MovedEngineReads(u: string)
    requires ClosingEngine(u).Some?
    requires Canon(Engine, EngineClause, u[SpaceEnd(u, 1)..])
    ensures Canon(Engine, EngineClause, ClosingClause[2..] + Sub(ClosingEngine, ClosingClause, u[Advance(ClosingEngine, u)..]))
  {
    var n := Advance(ClosingEngine, u);
    var rest := Sub(ClosingEngine, ClosingClause, u[n..]);
    ClauseParts();
    if Engine("ENGINE=" + rest).Some? {
      MovedWord(u);
      ClosedEngineReads(u);
      MovedReads(u[n..]);
    }
  }

  /** A word after the moved `ENGINE=` was a word after the matched one. */
  lemma MovedWord(u: string)
    requires ClosingEngine(u).Some?
    requires Engine("ENGINE=" + Sub(ClosingEngine, ClosingClause, u[Advance(ClosingEngine, u)..])).Some?
    ensures SpaceEnd(u, 1) + 7 < |u| && IsWord(u[SpaceEnd(u, 1) + 7])
  {
    var n := Advance(ClosingEngine, u);
    var rest := Sub(ClosingEngine, ClosingClause, u[n..]);
    ClosingRewrite();
    EngineFront("ENGINE=" + rest);
    assert rest[0] == ("ENGINE=" + rest)[7];
    WordAfter(ClosingEngine, ClosingClause, u[n..]);
  }

  /** Line 180 copies a text that reads `InnoDB`, so `ENGINE=` before the copy reads the engine clause. */
  lemma MovedReads(w: string)
    requires Reads(w, "InnoDB")
    ensures Reads("ENGINE=" + Sub(ClosingEngine, ClosingClause, w), EngineClause)
  {
    ClosingRewrite();
    ClauseParts();
    Forward(ClosingEngine, ClosingClause, w, "InnoDB");
    ReadsPrepend("ENGINE=", Sub(ClosingEngine, ClosingClause, w), "InnoDB");
  }

  /** Inside `) ENGINE=` only the moved engine can start, and it reads `ENGINE=InnoDB`. */
  lemma ClosingEngineInside(u: string)
    requires Pinned(Engine, EngineClause, u)
    ensures InsideReads(ClosingEngine, ClosingClause, Engine, EngineClause, u)
  {
    if u != [] && ClosingEngine(u).Some? {
      var rest := Sub(ClosingEngine, ClosingClause, u[Advance(ClosingEngine, u)..]);
      ClosingClauseLetters();
      forall i | 0 < i < |ClosingClause|
        ensures Canon(Engine, EngineClause, ClosingClause[i..] + rest)
      {
        if i == 2 {
          assert Canon(Engine, EngineClause, u[SpaceEnd(u, 1)..]);
          MovedEngineReads(u);
        } else if i == 1 {
          FrontOf(ClosingClause, 1, rest);
          if Engine(ClosingClause[1..] + rest).Some? { EngineFront(ClosingClause[1..] + rest); }
        } else {
          NoEngineInside(ClosingClause, 3, i, rest);
        }
      }
    }
  }

  /** Line 169: after the charset rewrite every `DEFAULT CHARSET=<word>` reads `DEFAULT CHARSET=utf8`. */
  lemma CharsetSubPins(u: string)
    ensures Pinned(Charset, CharsetClause, Sub(Charset, CharsetClause, u))
  {
    CharsetRewrite();
    CharsetRewriteInside();
    CharsetRewriteBack();
    OwnPins(Charset, CharsetClause, u);
  }

  /** Line 172: after the engine rewrite every `ENGINE=<word>` reads `ENGINE=InnoDB`... */
  lemma EngineSubPins(u: string)
    ensures Pinned(Engine, EngineClause, Sub(Engine, EngineClause, u))
  {
    EngineRewrite();
    EngineRewriteInside();
    EngineRewriteBack();
    OwnPins(Engine, EngineClause, u);
  }

  /** ... and what line 169 pinned stays pinned. */
  lemma EngineSubKeepsCharset(u: string)
    requires Pinned(Charset, CharsetClause, u)
    ensures Pinned(Charset, CharsetClause, Sub(Engine, EngineClause, u))
  {
    EngineRewrite();
    EngineRewriteInside();
    EngineRewriteCharset();
    InsideNoneReads(Engine, EngineClause, Charset, CharsetClause, u);
    KeepsPins(Engine, EngineClause, Charset, CharsetClause, u);
  }

  /** Line 180 keeps the engine pinned... */
  lemma ClosingSubKeepsEngine(u: string)
    requires Pinned(Engine, EngineClause, u)
    ensures Pinned(Engine, EngineClause, Sub(ClosingEngine, ClosingClause, u))
  {
    ClosingRewrite();
    ClosingRewriteBack();
    ClauseParts();
    forall j | 0 <= j <= |u| ensures InsideReads(ClosingEngine, ClosingClause, Engine, EngineClause, u[j..]) {
      PinnedSuffix(Engine, EngineClause, u, j);
      ClosingEngineInside(u[j..]);
    }
    KeepsPins(ClosingEngine, ClosingClause, Engine, EngineClause, u);
  }

  /** ... and the charset. */
  lemma ClosingSubKeepsCharset(u: string)
    requires Pinned(Charset, CharsetClause, u)
    ensures Pinned(Charset, CharsetClause, Sub(ClosingEngine, ClosingClause, u))
  {
    ClosingRewrite();
    ClosingRewriteBack();
    ClauseParts();
    InsideNoneReads(ClosingEngine, ClosingClause, Charset, CharsetClause, u);
    KeepsPins(ClosingEngine, ClosingClause, Charset, CharsetClause, u);
  }

  // ---------------------------------------------------------------------------------------
  // Lines 176-180: the engine clause is present afterwards

  lemma SearchSuffix(m: string -> Option<nat>, u: string, n: nat)
    requires n <= |u| && Search(m, u[n..])
    ensures Search(m, u)
  {
    var i :| 0 <= i < |u[n..]| && m(u[n..][i..]).Some?;
    assert u[n..][i..] == u[n + i..];
  }

  lemma SearchPrepend(m: string -> Option<nat>, a: string, v: string)
    requires Search(m, v)
    ensures Search(m, a + v)
  {
    var i :| 0 <= i < |v| && m(v[i..]).Some?;
    assert (a + v)[|a| + i..] == v[i..];
  }

  lemma NotEngine(v: string)
    requires v == [] || !SameLetter(v[0], 'E') || (1 < |v| && !SameLetter(v[1], 'N'))
    ensures Engine(v).None?
  {
    if Engine(v).Some? {
      EngineFront(v);
    }
  }

  /** The characters of an engine match and the word character after `ENGINE=` are no `)`. */
  lemma EngineNoParen(v: string, k: nat)
    requires Engine(v).Some? && k < 8
    ensures v[k] != ')'
  {
    if k < 7 {
      assert ')' !in "ENGINE=";
      assert SameLetter(v[k], "ENGINE="[k]) && "ENGINE="[k] in "ENGINE=";
    }
  }

  /** The characters of a charset match up to its first word character are no `)`. */
  lemma CharsetNoParen(v: string, k: nat)
    requires Charset(v).Some? && k <= SpaceEnd(v, 7) + 8
    ensures v[k] != ')'
  {
    var j := SpaceEnd(v, 7);
    if k < 7 {
      assert ')' !in "DEFAULT";
      assert SameLetter(v[k], "DEFAULT"[k]) && "DEFAULT"[k] in "DEFAULT";
    } else if j <= k < j + 8 {
      assert ')' !in "CHARSET=";
      assert v[k] == v[j..][k - j];
      assert SameLetter(v[j..][k - j], "CHARSET="[k - j]) && "CHARSET="[k - j] in "CHARSET=";
    }
  }

  /** Line 169's output starts with an engine clause only where its input does. */
  lemma CharsetFrontNoEngine(u: string)
    requires Engine(u).None?
    ensures Engine(Sub(Charset, CharsetClause, u)).None?
  {
    CharsetRewrite();
    CharsetClauseClashes();
    if Engine(Sub(Charset, CharsetClause, u)).Some? {
      EngineBack(Charset, CharsetClause, u, 0);
    }
  }

  /** No match of `q` starts in a rewrite's output when none starts at its front, inside the replacement or in the rest. */
  lemma OutNoMatch(m: string -> Option<nat>, repl: string, q: string -> Option<nat>, u: string, i: nat)
    requires IsMatcher(m) && u != [] && InsideNone(repl, q)
    requires q(Sub(m, repl, u)).None?
    requires !Search(q, Sub(m, repl, u[Advance(m, u)..]))
    requires i < |Sub(m, repl, u)|
    ensures q(Sub(m, repl, u)[i..]).None?
  {
    var out := Sub(m, repl, u);
    var head := HeadOut(m, repl, u);
    var rest := Sub(m, repl, u[Advance(m, u)..]);
    SubStep(m, repl, u);
    if i == 0 {
      assert out[0..] == out;
    } else if i < |head| {
      assert head == repl;
      SliceOfConcat(head, rest, i);
    } else {
      assert out[i..] == rest[i - |head|..];
    }
  }

  /** Line 169 makes no `ENGINE=<word>` where there was none. */
  lemma {:induction false} CharsetSubNoEngine(u: string)
    requires !Search(Engine, u)
    ensures !Search(Engine, Sub(Charset, CharsetClause, u))
    decreases |u|
  {
    if u != [] {
      var n := Advance(Charset, u);
      if Search(Engine, u[n..]) {
        SearchSuffix(Engine, u, n);
      }
      CharsetSubNoEngine(u[n..]);
      assert u[0..] == u;
      CharsetFrontNoEngine(u);
      CharsetRewriteInside();
      forall i | 0 <= i < |Sub(Charset, CharsetClause, u)| ensures Engine(Sub(Charset, CharsetClause, u)[i..]).None? {
        OutNoMatch(Charset, CharsetClause, Engine, u, i);
      }
    }
  }

  /**
   * Lines 176-177: a statement without any `ENGINE=<word>` gets the table options appended
   * to its charset-pinned, right-stripped text, `)` included.
   */
  lemma NoEngineGainsOptions(s: string)
    requires !Search(Engine, s)
    ensures PinTableOptions(s) == RStrip(Sub(Charset, CharsetClause, s)) + TableOptions
  {
    CharsetSubNoEngine(s);
    SubWithoutMatch(Engine, EngineClause, Sub(Charset, CharsetClause, s));
  }

  /** Before the `ENGINE=` that line 180 consumes, no engine clause starts. */
  lemma ClosingNoEngineBefore(u: string, i: nat)
    requires ClosingEngine(u).Some?
    requires i < SpaceEnd(u, 1) + 7 && i != SpaceEnd(u, 1)
    ensures Engine(u[i..]).None?
  {
    var j := SpaceEnd(u, 1);
    assert u[i..][0] == u[i];
    if i < j {
      assert !SameLetter(u[i], 'E');
    } else {
      var k := i - j;
      assert NoHeadFrom("ENGINE=", 1, 'E', 'N');
      NoHeadAt("ENGINE=", 1, 'E', 'N', k);
      assert u[i] == u[j..][k] && SameLetter(u[j..][k], "ENGINE="[k]);
      if k + 1 < 7 {
        assert u[i + 1] == u[j..][k + 1] && SameLetter(u[j..][k + 1], "ENGINE="[k + 1]);
        assert u[i..][1] == u[i + 1];
      }
    }
    NotEngine(u[i..]);
  }

  /** Where line 180 matches, a word after its `ENGINE=` is an engine clause that the rewrite moves behind `) `. */
  lemma ClosingKeepsFrontEngine(u: string)
    requires ClosingEngine(u).Some?
    requires SpaceEnd(u, 1) + 7 < |u| && IsWord(u[SpaceEnd(u, 1) + 7])
    ensures Search(Engine, Sub(ClosingEngine, ClosingClause, u))
  {
    var n := Advance(ClosingEngine, u);
    var rest := Sub(ClosingEngine, ClosingClause, u[n..]);
    var out := Sub(ClosingEngine, ClosingClause, u);
    SubStep(ClosingEngine, ClosingClause, u);
    ClauseParts();
    assert u[n..][0] == u[n];
    assert rest == [u[n]] + Sub(ClosingEngine, ClosingClause, u[n..][1..]);
    var v := out[2..];
    SliceOfConcat(ClosingClause, rest, 2);
    HeadOfConcat("ENGINE=", rest);
    StartsExactly(v, "ENGINE=");
    assert v[7] == rest[0] == u[n];
  }

  /** Where line 180 matches without a word after its `ENGINE=`, every engine clause lies in what follows. */
  lemma ClosingSkipsToEngine(u: string, i: nat)
    requires ClosingEngine(u).Some? && i < |u| && Engine(u[i..]).Some?
    requires !(SpaceEnd(u, 1) + 7 < |u| && IsWord(u[SpaceEnd(u, 1) + 7]))
    ensures Advance(ClosingEngine, u) <= i
    ensures Search(Engine, u[Advance(ClosingEngine, u)..])
  {
    var n := Advance(ClosingEngine, u);
    var j := SpaceEnd(u, 1);
    forall x | 0 <= x < n ensures Engine(u[x..]).None? {
      if x != j {
        ClosingNoEngineBefore(u, x);
      } else if n < |u| {
        assert u[j..][7] == u[n];
      }
    }
    assert u[n..][i - n..] == u[i..];
  }

  /** Where line 180 does not match at an engine clause, the rewrite copies the clause's front. */
  lemma ClosingCopiesEngine(u: string)
    requires ClosingEngine(u).None? && Engine(u).Some?
    ensures Engine(Sub(ClosingEngine, ClosingClause, u)).Some?
  {
    forall x | 0 <= x < 8 ensures ClosingEngine(u[x..]).None? {
      EngineNoParen(u, x);
      assert u[x..][0] == u[x];
    }
    CopiedThrough(ClosingEngine, ClosingClause, u, 8);
    var out := Sub(ClosingEngine, ClosingClause, u);
    HeadOfConcat(u[..8], Sub(ClosingEngine, ClosingClause, u[8..]));
    assert out[..8] == u[..8];
    EngineSameFront(u, out);
  }

  /** Line 180 keeps an `ENGINE=<word>` in the text: it rewrites only what comes before the word. */
  lemma {:induction false} ClosingSubFinds(u: string)
    requires Search(Engine, u)
    ensures Search(Engine, Sub(ClosingEngine, ClosingClause, u))
    decreases |u|
  {
    var i :| 0 <= i < |u| && Engine(u[i..]).Some?;
    var n := Advance(ClosingEngine, u);
    var rest := Sub(ClosingEngine, ClosingClause, u[n..]);
    SubStep(ClosingEngine, ClosingClause, u);
    assert u[0..] == u;
    if ClosingEngine(u).Some? {
      if SpaceEnd(u, 1) + 7 < |u| && IsWord(u[SpaceEnd(u, 1) + 7]) {
        ClosingKeepsFrontEngine(u);
      } else {
        ClosingSkipsToEngine(u, i);
        ClosingSubFinds(u[n..]);
        SearchPrepend(Engine, ClosingClause, rest);
      }
    } else if Engine(u).Some? {
      ClosingCopiesEngine(u);
      assert Sub(ClosingEngine, ClosingClause, u)[0..] == Sub(ClosingEngine, ClosingClause, u);
    } else {
      assert u[1..][i - 1..] == u[i..];
      ClosingSubFinds(u[1..]);
      SearchPrepend(Engine, [u[0]], rest);
    }
  }

  // ---------------------------------------------------------------------------------------
  // Line 177: the appended options

  /** `TableOptions` is `) `, the engine clause, a blank and the charset clause. */
  lemma TableOptionsParts()
    ensures TableOptions == ") ENGINE=InnoDB " + CharsetClause
    ensures TableOptions[2..15] == EngineClause && TableOptions[15] == ' '
  {
  }

  /** A text that starts with `lit` exactly starts with it without regard to case. */
  lemma StartsExactly(s: string, lit: string)
    requires |lit| <= |s| && s[..|lit|] == lit
    ensures StartsWithIgnoringCase(s, lit)
  {
    forall k | 0 <= k < |lit| ensures SameLetter(s[k], lit[k]) {
      assert s[k] == s[..|lit|][k];
    }
  }

  lemma TableOptionsEngine()
    ensures Engine(TableOptions[2..]).Some?
  {
    var v := TableOptions[2..];
    TableOptionsParts();
    ClauseParts();
    assert v[..13] == EngineClause;
    assert v[..7] == EngineClause[..7] == "ENGINE=";
    assert v[7] == EngineClause[7] == 'I';
    StartsExactly(v, "ENGINE=");
  }

  lemma TableOptionsLetters()
    ensures NoHeadFrom(") ENGINE=InnoDB ", 3, 'E', 'N') && NoHeadFrom(") ENGINE=InnoDB ", 0, 'D', 'E')
  {
    assert NoHeadFrom(") ENGINE=InnoDB ", 8, 'E', 'N');
    assert NoHeadFrom(") ENGINE=InnoDB ", 8, 'D', 'E');
  }

  lemma ClauseEnds()
    ensures TableOptions != [] && TableOptions[0] == ')'
    ensures CharsetClause != [] && !IsSpace(CharsetClause[|CharsetClause| - 1])
  {
  }

  /** Inside the appended options only the engine clause at position 2 starts, and it reads `ENGINE=InnoDB`. */
  lemma TailEngine(o: nat)
    requires o < |TableOptions|
    ensures Canon(Engine, EngineClause, TableOptions[o..])
  {
    TableOptionsParts();
    if o < 2 {
      assert TableOptions[o..][0] == ") "[o];
      NotEngine(TableOptions[o..]);
    } else if o == 2 {
      assert TableOptions[2..][..13] == EngineClause && TableOptions[2..][13] == ' ';
    } else {
      TailNoEngine(o);
    }
  }

  lemma TailNoEngine(o: nat)
    requires 2 < o < |TableOptions|
    ensures Engine(TableOptions[o..]).None?
  {
    var lead := ") ENGINE=InnoDB ";
    TableOptionsParts();
    if o < 16 {
      TableOptionsLetters();
      SliceOfConcat(lead, CharsetClause, o);
      NoEngineInside(lead, 3, o, CharsetClause);
    } else {
      CharsetClauseLetters();
      assert TableOptions[o..] == CharsetClause[o - 16..] + [];
      NoEngineInside(CharsetClause, 0, o - 16, []);
    }
  }

  /** Inside the appended options only the charset clause at position 16 starts, and it reads `DEFAULT CHARSET=utf8`. */
  lemma TailCharset(o: nat)
    requires o < |TableOptions|
    ensures Canon(Charset, CharsetClause, TableOptions[o..])
  {
    var lead := ") ENGINE=InnoDB ";
    TableOptionsParts();
    if o < 16 {
      TableOptionsLetters();
      SliceOfConcat(lead, CharsetClause, o);
      NoCharsetInside(lead, 0, o, CharsetClause);
    } else if o > 16 {
      CharsetClauseLetters();
      assert TableOptions[o..] == CharsetClause[o - 16..] + [];
      NoCharsetInside(CharsetClause, 1, o - 16, []);
    }
  }

  /** A `)` among the first eight characters rules out an engine clause. */
  lemma ParenNoEngine(v: string, k: nat)
    requires k < 8 && k < |v| && v[k] == ')'
    ensures Engine(v).None?
  {
    if k < 7 {
      assert ')' !in "ENGINE=";
      assert "ENGINE="[k] in "ENGINE=";
      assert !SameLetter(v[k], "ENGINE="[k]);
    }
  }

  /** A `)` in a text with a charset clause at its front comes after the clause's first word character. */
  lemma ParenAfterCharset(v: string, k: nat)
    requires Charset(v).Some? && k < |v| && v[k] == ')'
    ensures SpaceEnd(v, 7) + 8 < k
  {
    if k <= SpaceEnd(v, 7) + 8 {
      CharsetNoParen(v, k);
    }
  }

  /** Whether an engine clause starts depends on the first eight characters only. */
  lemma EngineSameFront(a: string, b: string)
    requires 8 <= |a| && 8 <= |b| && a[..8] == b[..8]
    ensures Engine(a).Some? <==> Engine(b).Some?
  {
    forall k | 0 <= k < 8 ensures a[k] == b[k] {
      assert a[k] == a[..8][k] && b[k] == b[..8][k];
    }
  }

  /** Before text appended after `)` no engine clause starts, as none did in the input. */
  lemma StrippedNoEngine(u: string, t: string, i: nat)
    requires !Search(Engine, u) && t != [] && t[0] == ')' && i < |RStrip(u)|
    ensures Engine((RStrip(u) + t)[i..]).None?
  {
    var r := RStrip(u);
    var v := (r + t)[i..];
    var k0 := |r| - i;
    assert v[k0] == ')';
    if k0 < 8 {
      ParenNoEngine(v, k0);
    } else {
      assert Engine(u[i..]).None?;
      assert u[i..][..8] == v[..8];
      EngineSameFront(u[i..], v);
    }
  }

  /** A charset clause before text appended after `)` lies wholly in the stripped input. */
  lemma StrippedCharsetFrom(u: string, t: string, i: nat)
    requires t != [] && t[0] == ')' && i < |RStrip(u)|
    requires Charset((RStrip(u) + t)[i..]).Some?
    ensures Charset(u[i..]).Some?
  {
    var r := RStrip(u);
    var v := (r + t)[i..];
    var e := SpaceEnd(v, 7) + 8;
    var k0 := |r| - i;
    assert v[k0] == ')';
    ParenAfterCharset(v, k0);
    assert u[i..][..e] == v[..e] && u[i..][e] == v[e];
    CharsetSamePrefix(v, u[i..]);
  }

  /** A clause the input reads, ending in a character that is not blank, survives the strip and the `)` after it. */
  lemma StrippedReads(u: string, t: string, c: string, i: nat)
    requires t != [] && t[0] == ')' && i < |RStrip(u)|
    requires c != [] && !IsSpace(c[|c| - 1]) && Reads(u[i..], c)
    ensures Reads((RStrip(u) + t)[i..], c)
  {
    var r := RStrip(u);
    var v := (r + t)[i..];
    assert u[i + |c| - 1] == u[i..][..|c|][|c| - 1];
    assert v[..|c|] == u[i..][..|c|];
    if i + |c| < |r| {
      assert v[|c|] == u[i..][|c|];
    } else {
      assert v[|c|] == ')';
    }
  }

  /** Before text appended after `)` every charset clause is one the input had, and it reads `c`. */
  lemma StrippedCharset(u: string, t: string, c: string, i: nat)
    requires Pinned(Charset, c, u) && c != [] && !IsSpace(c[|c| - 1])
    requires t != [] && t[0] == ')' && i < |RStrip(u)|
    ensures Canon(Charset, c, (RStrip(u) + t)[i..])
  {
    if Charset((RStrip(u) + t)[i..]).Some? {
      StrippedCharsetFrom(u, t, i);
      assert Canon(Charset, c, u[i..]);
      StrippedReads(u, t, c, i);
    }
  }

  lemma AppendedCanon(u: string, i: nat)
    requires !Search(Engine, u) && Pinned(Charset, CharsetClause, u)
    requires i < |RStrip(u) + TableOptions|
    ensures var v := (RStrip(u) + TableOptions)[i..];
      Canon(Engine, EngineClause, v) && Canon(Charset, CharsetClause, v)
  {
    var r := RStrip(u);
    ClauseEnds();
    if i < |r| {
      StrippedNoEngine(u, TableOptions, i);
      StrippedCharset(u, TableOptions, CharsetClause, i);
    } else {
      assert (r + TableOptions)[i..] == TableOptions[i - |r|..];
      TailEngine(i - |r|);
      TailCharset(i - |r|);
    }
  }

  /** Line 177 leaves both clauses pinned and an engine clause present. */
  lemma AppendPins(u: string)
    requires !Search(Engine, u) && Pinned(Charset, CharsetClause, u)
    ensures var out := RStrip(u) + TableOptions;
      Pinned(Engine, EngineClause, out) && Pinned(Charset, CharsetClause, out) && Search(Engine, out)
  {
    var r := RStrip(u);
    var out := r + TableOptions;
    forall i | 0 <= i < |out|
      ensures Canon(Engine, EngineClause, out[i..]) && Canon(Charset, CharsetClause, out[i..])
    {
      AppendedCanon(u, i);
    }
    TableOptionsEngine();
    assert out[|r| + 2..] == TableOptions[2..];
  }

  /**
   * Lines 168-180: afterwards every `ENGINE=<word>` reads `ENGINE=InnoDB`, every
   * `DEFAULT CHARSET=<word>` reads `DEFAULT CHARSET=utf8`, and there is an engine clause.
   */
  lemma TableOptionsPinned(s: string)
    ensures var out := PinTableOptions(s);
      Pinned(Engine, EngineClause, out) && Pinned(Charset, CharsetClause, out) && Search(Engine, out)
  {
    var charset := Sub(Charset, CharsetClause, s);
    var engine := Sub(Engine, EngineClause, charset);
    CharsetSubPins(s);
    EngineSubPins(charset);
    EngineSubKeepsCharset(charset);
    if !Search(Engine, engine) {
      AppendPins(engine);
    } else {
      ClosingSubKeepsEngine(engine);
      ClosingSubKeepsCharset(engine);
      ClosingSubFinds(engine);
    }
  }

  /** `_remove_foreign_keys` leaves a statement whose engine is InnoDB and whose charset is utf8. */
  lemma RemoveForeignKeysPins(sql: string)
    ensures var out := RemoveForeignKeys(sql);
      Pinned(Engine, EngineClause, out) && Pinned(Charset, CharsetClause, out) && Search(Engine, out)
  {
    TableOptionsPinned(DropForeignKeys(sql));
  }
}

/** The MySQL adapter's `get_table_structure`, over the answers of its two queries. */
module MySqlStructure {
  import opened Common
  import MySqlDdl

  /** One row of `DESCRIBE`: field, type, null, key, default, extra. */
  datatype ColumnRow = ColumnRow(field: string, columnType: string, nullable: string, key: string,
                                 default: Option<string>, extra: string)

  datatype Structure = Structure(tableName: string, createTableSql: string, columns: seq<ColumnRow>)

  datatype StructureError = TableNotFound   // `SHOW CREATE TABLE` gave no row

  /**
   * `get_table_structure` over the answers of `SHOW CREATE TABLE` (its second column, or
   * nothing) and of `DESCRIBE`: the statement, rewritten when asked, and the columns in order.
   */
  method GetTableStructure(tableName: string, created: Option<string>, describe: seq<ColumnRow>,
                           removeForeignKeys: bool) returns (r: Result<Structure, StructureError>)
    ensures created.None? <==> r == Err(TableNotFound)
    ensures r.Ok? ==> r.value.tableName == tableName && r.value.columns == describe
    ensures r.Ok? && !removeForeignKeys ==> r.value.createTableSql == created.value
    ensures r.Ok? && removeForeignKeys ==> r.value.createTableSql == MySqlDdl.RemoveForeignKeys(created.value)
  {
    if created.None? {
      return Err(TableNotFound);
    }
    var sql := created.value;
    if removeForeignKeys {
      sql := MySqlDdl.RemoveForeignKeys(sql);
    }
    var columns: seq<ColumnRow> := [];
    for i := 0 to |describe|
      invariant columns == describe[..i]
    {
      columns := columns + [describe[i]];
    }
    return Ok(Structure(tableName, sql, columns));
  }
}
