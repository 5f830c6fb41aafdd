// The recipe detail page (pages/detail.php): the id guard and the reading
// of the ingredients column, a ';'-separated list whose entries are split
// into amount, unit and name by the pattern
// ^(\d+(?:\.\d+)?)\s+([a-zA-Z]+)\s+(.+)$ (PCRE, no flags).
module Ingredients {
  import opened Wrappers
  import Strings

  // ---------------------------------------------------------------------
  // The id guard
  // ---------------------------------------------------------------------

  datatype Page = Redirect | Show(id: int)

  /** intval of the id parameter (0 when it is absent); anything not positive goes back to the index. */
  function DetailTarget(idParam: Option<string>): (p: Page)
    ensures p.Show? ==> p.id > 0
    ensures p.Redirect? <==> idParam.None? || Strings.Intval(idParam.value) <= 0
  {
    var id := if idParam.Some? then Strings.Intval(idParam.value) else 0;
    if id <= 0 then Redirect else Show(id)
  }

  /** A positive decimal id up to PHP_INT_MAX is shown; its negation and a missing id redirect. */
  lemma DetailTargetDecimal(n: nat)
    requires 0 < n <= Strings.PhpIntMax
    ensures DetailTarget(Some(Strings.Decimal(n))) == Show(n)
    ensures DetailTarget(Some("-" + Strings.Decimal(n))) == Redirect
    ensures DetailTarget(None) == Redirect
  {
    Strings.IntvalDecimal(n);
    Strings.IntvalNegative(n);
  }

  // ---------------------------------------------------------------------
  // The character classes of the pattern
  // ---------------------------------------------------------------------

  /** PCRE's \s: space, \t, \n, \v, \f and \r. */
  predicate IsSpace(c: char)
  {
    c == ' ' || c == '\t' || c == '\n' || c == Strings.VerticalTab || c == Strings.FormFeed || c == '\r'
  }

  predicate IsLetter(c: char)
  {
    'a' <= c <= 'z' || 'A' <= c <= 'Z'
  }

  predicate AllSpace(s: string) { forall k :: 0 <= k < |s| ==> IsSpace(s[k]) }
  predicate AllLetters(s: string) { forall k :: 0 <= k < |s| ==> IsLetter(s[k]) }
  predicate AllDigits(s: string) { forall k :: 0 <= k < |s| ==> Strings.IsDigit(s[k]) }

  /** The end of the longest run of `p` characters starting at i. */
  function SpaceEnd(s: string, i: nat): (j: nat)
    requires i <= |s|
    ensures i <= j <= |s| && AllSpace(s[i..j]) && (j == |s| || !IsSpace(s[j]))
    decreases |s| - i
  {
    if i == |s| || !IsSpace(s[i]) then i else SpaceEnd(s, i + 1)
  }

  function LetterEnd(s: string, i: nat): (j: nat)
    requires i <= |s|
    ensures i <= j <= |s| && AllLetters(s[i..j]) && (j == |s| || !IsLetter(s[j]))
    decreases |s| - i
  {
    if i == |s| || !IsLetter(s[i]) then i else LetterEnd(s, i + 1)
  }

  function DigitEnd(s: string, i: nat): (j: nat)
    requires i <= |s|
    ensures i <= j <= |s| && AllDigits(s[i..j]) && (j == |s| || !Strings.IsDigit(s[j]))
    decreases |s| - i
  {
    if i == |s| || !Strings.IsDigit(s[i]) then i else DigitEnd(s, i + 1)
  }

  /**
   * The end of group 1, \d+(?:\.\d+)?: the digit run, extended by a '.' and
   * a second digit run when one follows. Any shorter choice leaves a digit
   * or a '.' where \s+ must start, so this is the only one that can match.
   */
  function AmountEnd(s: string): (a: nat)
    ensures a <= |s|
  {
    var d := DigitEnd(s, 0);
    if 0 < d && d + 1 < |s| && s[d] == '.' && Strings.IsDigit(s[d + 1]) then DigitEnd(s, d + 1) else d
  }

  /** (.+)$ can match from j: a non-empty run without "\n" that reaches the end or a final "\n". */
  predicate TailFrom(s: string, j: nat)
  {
    j <= |s| &&
    ((j < |s| && '\n' !in s[j..]) || (j + 1 < |s| && s[|s| - 1] == '\n' && '\n' !in s[j..|s| - 1]))
  }

  /** Where the greedy .+ stops: the end, or just before a final "\n". */
  function TailEnd(s: string, j: nat): (k: nat)
    requires TailFrom(s, j)
    ensures j < k <= |s| && '\n' !in s[j..k]
  {
    if '\n' !in s[j..] then |s| else |s| - 1
  }

  /**
   * The second \s+ backtracks from the longest run down to one character:
   * the name starts at the largest j in (lo, hi] from which (.+)$ matches.
   */
  function NameStart(s: string, lo: nat, hi: nat): (r: Option<nat>)
    requires lo <= hi <= |s|
    ensures r.Some? ==> lo < r.value <= hi && TailFrom(s, r.value)
    ensures r.Some? ==> forall j :: r.value < j <= hi ==> !TailFrom(s, j)
    ensures r.None? ==> forall j :: lo < j <= hi ==> !TailFrom(s, j)
    decreases hi
  {
    if hi == lo then None
    else if TailFrom(s, hi) then Some(hi)
    else NameStart(s, lo, hi - 1)
  }

  datatype Ingredient = Ingredient(amount: string, unit: string, name: string)

  /** The three groups of the pattern, or None when it does not match. */
  function MatchIngredient(s: string): Option<Ingredient>
  {
    var a := AmountEnd(s);
    if a == 0 then None
    else
      var w := SpaceEnd(s, a);
      if w == a then None
      else
        var u := LetterEnd(s, w);
        if u == w then None
        else
          var e := SpaceEnd(s, u);
          if e == u then None
          else
            match NameStart(s, u, e)
            case None => None
            case Some(j) => Some(Ingredient(s[..a], s[w..u], s[j..TailEnd(s, j)]))
  }

  /** An amount as group 1 reads it: digits, optionally '.' and more digits. */
  predicate IsAmount(a: string)
  {
    (a != [] && AllDigits(a)) ||
    exists k :: 0 < k < |a| - 1 && a[k] == '.' && AllDigits(a[..k]) && AllDigits(a[k + 1..])
  }

  /** What group 1 captures is an amount. */
  lemma AmountShape(s: string)
    requires AmountEnd(s) > 0
    ensures IsAmount(s[..AmountEnd(s)])
  {
    var a := AmountEnd(s);
    var d := DigitEnd(s, 0);
    assert s[..d] == s[0..d];
    if a != d {
      var t := s[..a];
      assert t[d] == '.';
      assert t[..d] == s[0..d];
      assert t[d + 1..] == s[d + 1..a];
      assert 0 < d < |t| - 1;
    }
  }

  /**
   * Whenever the pattern matches, the piece is the amount, white space, the
   * unit (letters), white space, the name (non-empty, without "\n") and
   * nothing after it but an optional final "\n".
   */
  lemma MatchSound(s: string) returns (w1: string, w2: string, rest: string)
    requires MatchIngredient(s).Some?
    ensures var g := MatchIngredient(s).value;
      s == g.amount + w1 + g.unit + w2 + g.name + rest
    ensures w1 != [] && AllSpace(w1) && w2 != [] && AllSpace(w2) && (rest == [] || rest == "\n")
    ensures var g := MatchIngredient(s).value;
      IsAmount(g.amount) && g.unit != [] && AllLetters(g.unit) && g.name != [] && '\n' !in g.name
  {
    var a := AmountEnd(s);
    var w := SpaceEnd(s, a);
    var u := LetterEnd(s, w);
    var e := SpaceEnd(s, u);
    var j := NameStart(s, u, e).value;
    var k := TailEnd(s, j);
    assert MatchIngredient(s).value == Ingredient(s[..a], s[w..u], s[j..k]);
    AmountShape(s);
    w1, w2, rest := s[a..w], s[u..j], s[k..];
    assert AllSpace(w2) by {
      assert forall i :: 0 <= i < |w2| ==> w2[i] == s[u..e][i];
    }
    Pieces(s, a, w, u, j, k);
  }

  /** A string is the concatenation of its slices between ordered cut points. */
  lemma Pieces(s: string, a: nat, w: nat, u: nat, j: nat, k: nat)
    requires a <= w <= u <= j <= k <= |s|
    ensures s == s[..a] + s[a..w] + s[w..u] + s[u..j] + s[j..k] + s[k..]
  {
    assert s[..w] == s[..a] + s[a..w];
    assert s[..u] == s[..w] + s[w..u];
    assert s[..j] == s[..u] + s[u..j];
    assert s[..k] == s[..j] + s[j..k];
    assert s == s[..k] + s[k..];
  }

  /**
   * Conversely, a piece made of an amount s[..a], white space, a unit
   * s[w..u], white space and a name s[e..] that starts with a non-space
   * character and holds no "\n" is read back as exactly those three groups.
   */
  lemma MatchComplete(s: string, a: nat, w: nat, u: nat, e: nat)
    requires 0 < a < w < u < e < |s|
    requires IsAmount(s[..a]) && AllSpace(s[a..w]) && AllLetters(s[w..u]) && AllSpace(s[u..e])
    requires !IsSpace(s[e]) && '\n' !in s[e..]
    ensures MatchIngredient(s) == Some(Ingredient(s[..a], s[w..u], s[e..]))
  {
    AmountEndOf(s, a);
    assert !IsSpace(s[w]) by {
      assert s[w] == s[w..u][0];
    }
    SpaceEndOf(s, a, w);
    assert !IsLetter(s[u]) by {
      assert s[u] == s[u..e][0];
    }
    LetterEndOf(s, w, u);
    SpaceEndOf(s, u, e);
    MatchAt(s, a, w, u, e);
  }

  /** With the runs known and a name without "\n" after the second one, the pattern's groups are the parts. */
  lemma MatchAt(s: string, a: nat, w: nat, u: nat, e: nat)
    requires 0 < a < w < u < e < |s|
    requires AmountEnd(s) == a && SpaceEnd(s, a) == w && LetterEnd(s, w) == u && SpaceEnd(s, u) == e
    requires '\n' !in s[e..]
    ensures MatchIngredient(s) == Some(Ingredient(s[..a], s[w..u], s[e..]))
  {
    assert TailFrom(s, e);
    assert NameStart(s, u, e) == Some(e);
    assert TailEnd(s, e) == |s|;
    assert s[e..TailEnd(s, e)] == s[e..];
  }

  lemma {:induction false} SpaceEndOf(s: string, i: nat, j: nat)
    requires i <= j <= |s| && AllSpace(s[i..j]) && (j == |s| || !IsSpace(s[j]))
    ensures SpaceEnd(s, i) == j
    decreases j - i
  {
    if i < j {
      assert s[i] == s[i..j][0];
      assert s[i + 1..j] == s[i..j][1..];
      SpaceEndOf(s, i + 1, j);
    }
  }

  lemma {:induction false} LetterEndOf(s: string, i: nat, j: nat)
    requires i <= j <= |s| && AllLetters(s[i..j]) && (j == |s| || !IsLetter(s[j]))
    ensures LetterEnd(s, i) == j
    decreases j - i
  {
    if i < j {
      assert s[i] == s[i..j][0];
      assert s[i + 1..j] == s[i..j][1..];
      LetterEndOf(s, i + 1, j);
    }
  }

  lemma {:induction false} DigitEndOf(s: string, i: nat, j: nat)
    requires i <= j <= |s| && AllDigits(s[i..j]) && (j == |s| || !Strings.IsDigit(s[j]))
    ensures DigitEnd(s, i) == j
    decreases j - i
  {
    if i < j {
      assert s[i] == s[i..j][0];
      assert s[i + 1..j] == s[i..j][1..];
      DigitEndOf(s, i + 1, j);
    }
  }

  /** Group 1 ends where the amount ends when white space follows it. */
  lemma AmountEndOf(s: string, a: nat)
    requires a < |s| && IsAmount(s[..a]) && IsSpace(s[a])
    ensures AmountEnd(s) == a
  {
    var amount := s[..a];
    if amount != [] && AllDigits(amount) {
      assert s[0..a] == amount;
      DigitEndOf(s, 0, a);
    } else {
      var k :| 0 < k < a - 1 && amount[k] == '.' && AllDigits(amount[..k]) && AllDigits(amount[k + 1..]);
      assert s[0..k] == amount[..k];
      DigitEndOf(s, 0, k);
      assert s[k + 1..a] == amount[k + 1..];
      DigitEndOf(s, k + 1, a);
    }
  }

  /** The example of the pattern's own comment. */
  lemma PassendaleKaas()
    ensures MatchIngredient("100 g passendale kaas") == Some(Ingredient("100", "g", "passendale kaas"))
  {
    var s := "100 g passendale kaas";
    assert s[..3] == "100" && s[4..5] == "g" && s[6..] == "passendale kaas";
    assert AllDigits(s[..3]);
    MatchComplete(s, 3, 4, 5, 6);
  }

  /**
   * One piece of the exploded column: trimmed, skipped when PHP-empty
   * ("" or "0"), otherwise the pattern's groups or, failing the pattern,
   * the whole trimmed piece as the name.
   */
  function ParsePiece(piece: string): (r: Option<Ingredient>)
    ensures r.None? <==> Strings.PhpEmpty(Strings.PhpTrim(piece))
    ensures r.Some? && MatchIngredient(Strings.PhpTrim(piece)).None? ==>
      r.value == Ingredient("", "", Strings.PhpTrim(piece))
  {
    var t := Strings.PhpTrim(piece);
    if Strings.PhpEmpty(t) then None
    else match MatchIngredient(t)
      case Some(g) => Some(g)
      case None => Some(Ingredient("", "", t))
  }

  /** The values `f` gives the items, in order, with the items it gives None for left out. */
  function Collect<T, U>(f: T -> Option<U>, xs: seq<T>): seq<U>
  {
    if xs == [] then []
    else
      var last := f(xs[|xs| - 1]);
      Collect(f, xs[..|xs| - 1]) + (if last.Some? then [last.value] else [])
  }

  /** The entries of the kept pieces, in order. */
  function ParsePieces(pieces: seq<string>): seq<Ingredient>
  {
    Collect(ParsePiece, pieces)
  }

  /** The ingredients column (null for a recipe that does not exist) as the list the page shows. */
  function IngredientList(column: Option<string>): seq<Ingredient>
  {
    if column.None? || Strings.PhpEmpty(column.value) then []
    else ParsePieces(Strings.Split(column.value, ';'))
  }

  /** The page's reading of the ingredients column: nothing for an empty column, else its pieces. */
  method FormatIngredients(column: Option<string>) returns (ingredients: seq<Ingredient>)
    ensures ingredients == IngredientList(column)
  {
    ingredients := [];
    if column.Some? && !Strings.PhpEmpty(column.value) {
      var rawIngredients := Strings.Split(column.value, ';');
      ingredients := FormatPieces(rawIngredients);
    }
  }

  /** The loop of the page, appending one entry per kept piece. */
  method FormatPieces(rawIngredients: seq<string>) returns (ingredients: seq<Ingredient>)
    ensures ingredients == ParsePieces(rawIngredients)
  {
    ingredients := [];
    for i := 0 to |rawIngredients|
      invariant ingredients == ParsePieces(rawIngredients[..i])
    {
      ParsePiecesStep(rawIngredients, i);
      var entry := ReadPiece(rawIngredients[i]);
      if entry.Some? {
        ingredients := ingredients + [entry.value];
      }
    }
    assert rawIngredients[..|rawIngredients|] == rawIngredients;
  }

  /** The body of the page's loop for one piece: trim, skip if empty, match or keep whole. */
  method ReadPiece(piece: string) returns (entry: Option<Ingredient>)
    ensures entry == ParsePiece(piece)
  {
    var ingredient := Strings.PhpTrim(piece);
    entry := None;
    if !Strings.PhpEmpty(ingredient) {
      var m := MatchIngredient(ingredient);
      if m.Some? {
        entry := Some(m.value);
      } else {
        entry := Some(Ingredient("", "", ingredient));
      }
    }
  }

  /** One more piece adds its entry, if it is kept, at the end. */
  lemma ParsePiecesStep(pieces: seq<string>, i: nat)
    requires i < |pieces|
    ensures var entry := ParsePiece(pieces[i]);
      ParsePieces(pieces[..i + 1]) == ParsePieces(pieces[..i]) + (if entry.Some? then [entry.value] else [])
  {
    assert pieces[..i + 1][..i] == pieces[..i];
    assert pieces[..i + 1][i] == pieces[i];
  }

  /** The number of pieces that survive trimming. */
  function Kept(pieces: seq<string>): nat
  {
    if pieces == [] then 0
    else Kept(pieces[..|pieces| - 1]) + (if Strings.PhpEmpty(Strings.PhpTrim(pieces[|pieces| - 1])) then 0 else 1)
  }

  /** Items concatenated give entries concatenated: each item is read on its own. */
  lemma {:induction false} CollectAppend<T, U>(f: T -> Option<U>, a: seq<T>, b: seq<T>)
    ensures Collect(f, a + b) == Collect(f, a) + Collect(f, b)
    decreases |b|
  {
    if b == [] {
      assert a + b == a;
    } else {
      var init := b[..|b| - 1];
      var last := b[|b| - 1];
      CollectAppend(f, a, init);
      assert (a + b)[..|a + b| - 1] == a + init;
      assert (a + b)[|a + b| - 1] == last;
    }
  }

  lemma {:induction false} ParsePiecesCount(pieces: seq<string>)
    ensures |ParsePieces(pieces)| == Kept(pieces)
  {
    if pieces != [] {
      ParsePiecesCount(pieces[..|pieces| - 1]);
    }
  }

  /**
   * The list holds one entry per ';'-separated piece that is not empty after
   * trimming, and the entry of the last piece comes last.
   */
  lemma IngredientListShape(column: string)
    requires !Strings.PhpEmpty(column)
    ensures |IngredientList(Some(column))| == Kept(Strings.Split(column, ';'))
  {
    ParsePiecesCount(Strings.Split(column, ';'));
  }

  /** Two ingredients joined by ';' give their two entries in order, whatever the padding. */
  lemma TwoIngredients(x: string, y: string)
    requires ';' !in x && ';' !in y
    requires !Strings.PhpEmpty(x + ";" + y)
    ensures IngredientList(Some(x + ";" + y)) ==
      ParsePieces([x]) + ParsePieces([y])
  {
    Strings.SplitJoin([x, y], ';');
    Strings.JoinCons([x, y], ';');
    assert Strings.Join([y], ';') == y;
    assert Strings.Join([x, y], ';') == x + ";" + y;
    assert [x, y] == [x] + [y];
    CollectAppend(ParsePiece, [x], [y]);
  }
}
