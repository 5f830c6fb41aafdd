// A reference reading of the fetchCards statements on an in-memory
// database: which recipes the WHERE clause lets through (the OR of the
// categories, AND the search, AND the favourite condition), the match_count
// each one carries, the ranking by match_count and the sort map, and the
// LIMIT/OFFSET window. The join produces one row per combination of a
// genre link and a tag link of a recipe (a missing side gives one NULL row);
// GROUP BY m.id then keeps one row per recipe. Where MySQL may take any row
// of the group, this reading takes the first row that passes the WHERE
// clause, in genre-link-major order.
module CardEval {
  import opened Wrappers
  import Strings
  import Tables
  import CardQuery

  // ---------------------------------------------------------------------
  // The queries this reading covers
  // ---------------------------------------------------------------------

  /** A decimal numeral, which MySQL reads as the number it spells. */
  predicate IsNumeral(s: string)
  {
    s != [] && forall k :: 0 <= k < |s| ==> Strings.IsDigit(s[k])
  }

  /** A search term in which LIKE sees no wildcard and no escape. */
  predicate NoWildcard(s: string)
  {
    forall k :: 0 <= k < |s| ==> s[k] != '%' && s[k] != '_' && s[k] != '\\'
  }

  /**
   * The statements this reading covers: categories on genre, tag or author
   * (another name, such as prepareTimeGroup, tests a column m.<name>_id
   * of a schema outside this model) whose ids are decimal numerals, and a
   * search term with no LIKE wildcard or escape character in it.
   */
  predicate Evaluable(cs: seq<CardQuery.Category>, search: string)
  {
    (forall i :: 0 <= i < |cs| ==> cs[i].name == "genre" || cs[i].name == "tag" || cs[i].name == "author") &&
    (forall i, k :: 0 <= i < |cs| && 0 <= k < |cs[i].ids| ==> IsNumeral(cs[i].ids[k])) &&
    NoWildcard(search)
  }

  /** The numbers an IN list of numerals names. */
  function IdSet(ids: seq<string>): set<int>
  {
    set x | x in ids && IsNumeral(x) :: Strings.DigitsValue(x)
  }

  /** The filters and search of a fetchCards call that this reading covers. */
  predicate Covered(f: CardQuery.Filters, search: string)
  {
    Evaluable(CardQuery.Categories(f), search)
  }

  // ---------------------------------------------------------------------
  // The joined rows of one recipe
  // ---------------------------------------------------------------------

  /** mg.genre_id and mt.tag_id of one joined row; None is NULL. */
  datatype JoinRow = JoinRow(genre: Option<int>, tag: Option<int>)

  /** The values a LEFT JOIN gives one side: every linked id, or one NULL without links. */
  function Options(ids: seq<int>): (os: seq<Option<int>>)
    ensures forall o :: o in os <==> (ids == [] && o == None) || (o.Some? && o.value in ids)
  {
    if ids == [] then [None]
    else
      var rest := Options(ids[1..]);
      assert forall x :: x in ids <==> x == ids[0] || x in ids[1..];
      if |ids| == 1 then [Some(ids[0])] else [Some(ids[0])] + rest
  }

  function Pair(g: Option<int>, ts: seq<Option<int>>): (rs: seq<JoinRow>)
    ensures forall r :: r in rs <==> r.genre == g && r.tag in ts
  {
    if ts == [] then []
    else
      assert forall t :: t in ts <==> t == ts[0] || t in ts[1..];
      [JoinRow(g, ts[0])] + Pair(g, ts[1..])
  }

  function Product(gs: seq<Option<int>>, ts: seq<Option<int>>): (rs: seq<JoinRow>)
    ensures forall r :: r in rs <==> r.genre in gs && r.tag in ts
  {
    if gs == [] then []
    else
      assert forall g :: g in gs <==> g == gs[0] || g in gs[1..];
      Pair(gs[0], ts) + Product(gs[1..], ts)
  }

  /** The joined rows of a recipe, genre links outermost. */
  function Rows(db: Tables.Db, m: int): seq<JoinRow>
  {
    Product(Options(Tables.LinkedIds(db.genreLinks, m)), Options(Tables.LinkedIds(db.tagLinks, m)))
  }

  // ---------------------------------------------------------------------
  // The WHERE clause on one row
  // ---------------------------------------------------------------------

  /** What the evaluation depends on besides the recipe. */
  datatype Ctx = Ctx(db: Tables.Db, cs: seq<CardQuery.Category>, search: string, fav: Option<int>,
                     sort: CardQuery.Sort, collation: Collation)

  /**
   * The IN term of a category holds on a row of recipe m: mg.genre_id,
   * mt.tag_id or m.author_id is listed. Other names are outside this reading.
   */
  predicate InCategory(db: Tables.Db, m: int, r: JoinRow, c: CardQuery.Category)
  {
    if c.name == "genre" then r.genre.Some? && r.genre.value in IdSet(c.ids)
    else if c.name == "tag" then r.tag.Some? && r.tag.value in IdSet(c.ids)
    else if c.name == "author" then
      m in db.menus && db.menus[m].authorId.Some? && db.menus[m].authorId.value in IdSet(c.ids)
    else false
  }

  /** The match_count of a row: how many of the categories' IN terms hold on it. */
  function MatchCount(db: Tables.Db, m: int, r: JoinRow, cs: seq<CardQuery.Category>): (n: nat)
    ensures n <= |cs|
  {
    if cs == [] then 0
    else MatchCount(db, m, r, cs[..|cs| - 1]) + (if InCategory(db, m, r, cs[|cs| - 1]) then 1 else 0)
  }

  /** The match count is positive exactly when some category matches the row: it counts the OR. */
  lemma {:induction false} MatchCountPositive(db: Tables.Db, m: int, r: JoinRow, cs: seq<CardQuery.Category>)
    ensures MatchCount(db, m, r, cs) > 0 <==> exists i :: 0 <= i < |cs| && InCategory(db, m, r, cs[i])
  {
    if cs != [] {
      var init := cs[..|cs| - 1];
      var last := cs[|cs| - 1];
      MatchCountPositive(db, m, r, init);
      if MatchCount(db, m, r, init) > 0 {
        var i :| 0 <= i < |init| && InCategory(db, m, r, init[i]);
        assert init[i] == cs[i];
      }
      if exists i :: 0 <= i < |cs| && InCategory(db, m, r, cs[i]) {
        var i :| 0 <= i < |cs| && InCategory(db, m, r, cs[i]);
        if i < |cs| - 1 {
          assert init[i] == cs[i];
        }
      }
    }
  }

  /** The match count is |cs| exactly when every category matches the row: it counts the AND. */
  lemma {:induction false} MatchCountFull(db: Tables.Db, m: int, r: JoinRow, cs: seq<CardQuery.Category>)
    ensures MatchCount(db, m, r, cs) == |cs| <==> forall i :: 0 <= i < |cs| ==> InCategory(db, m, r, cs[i])
  {
    if cs != [] {
      var init := cs[..|cs| - 1];
      MatchCountFull(db, m, r, init);
      if MatchCount(db, m, r, cs) == |cs| {
        forall i | 0 <= i < |cs| ensures InCategory(db, m, r, cs[i]) {
          if i < |init| {
            assert init[i] == cs[i];
          }
        }
      }
    }
  }

  /** `s` occurs in `t`. */
  predicate IsInfix(s: string, t: string)
    decreases |t|
  {
    (|s| <= |t| && t[..|s|] == s) || (t != [] && IsInfix(s, t[1..]))
  }

  /**
   * LIKE '%term%' without wildcards in the term: the term occurs in the
   * recipe name, the description or the author name.
   */
  predicate SearchHit(db: Tables.Db, m: int, s: string)
  {
    m in db.menus &&
    var menu := db.menus[m];
    IsInfix(s, menu.name) || IsInfix(s, menu.description) ||
    (menu.authorId.Some? && menu.authorId.value in db.authors && IsInfix(s, db.authors[menu.authorId.value]))
  }

  /** The category and search conditions hold on a row (the favourite condition is per recipe). */
  predicate Qualifies(ctx: Ctx, m: int, r: JoinRow)
  {
    (ctx.cs == [] || MatchCount(ctx.db, m, r, ctx.cs) > 0) &&
    (Strings.PhpEmpty(ctx.search) || SearchHit(ctx.db, m, ctx.search))
  }

  function FirstQualifying(ctx: Ctx, m: int, rs: seq<JoinRow>): (r: Option<JoinRow>)
    ensures r.Some? ==> r.value in rs && Qualifies(ctx, m, r.value)
    ensures r.None? <==> forall x :: x in rs ==> !Qualifies(ctx, m, x)
  {
    if rs == [] then None
    else if Qualifies(ctx, m, rs[0]) then Some(rs[0])
    else
      assert forall x :: x in rs <==> x == rs[0] || x in rs[1..];
      FirstQualifying(ctx, m, rs[1..])
  }

  /** Recipe m is in the result: it exists, it is a favourite if asked, and one of its rows qualifies. */
  predicate Included(ctx: Ctx, m: int)
  {
    m in ctx.db.menus &&
    (ctx.fav.Some? ==> (ctx.fav.value, m) in ctx.db.favs) &&
    FirstQualifying(ctx, m, Rows(ctx.db, m)).Some?
  }

  // ---------------------------------------------------------------------
  // What the WHERE clause lets through
  // ---------------------------------------------------------------------

  /** A joined row with the given genre and tag side exists exactly when the links allow it. */
  lemma RowsOf(db: Tables.Db, m: int, r: JoinRow)
    ensures r in Rows(db, m) <==>
      (if r.genre.Some? then Tables.Link(m, r.genre.value) in db.genreLinks
       else Tables.LinkedIds(db.genreLinks, m) == []) &&
      (if r.tag.Some? then Tables.Link(m, r.tag.value) in db.tagLinks
       else Tables.LinkedIds(db.tagLinks, m) == [])
  {
  }

  /**
   * The full condition: a recipe is listed iff it exists, is the user's
   * favourite when the favourite filter is on, matches the search when there
   * is one, and has a joined row on which some category matches when there
   * are categories.
   */
  lemma IncludedIff(ctx: Ctx, m: int)
    requires Evaluable(ctx.cs, ctx.search)
    ensures Included(ctx, m) <==>
      m in ctx.db.menus &&
      (ctx.fav.Some? ==> (ctx.fav.value, m) in ctx.db.favs) &&
      (!Strings.PhpEmpty(ctx.search) ==> SearchHit(ctx.db, m, ctx.search)) &&
      (ctx.cs != [] ==> exists r, i :: r in Rows(ctx.db, m) && 0 <= i < |ctx.cs| && InCategory(ctx.db, m, r, ctx.cs[i]))
  {
    var rs := Rows(ctx.db, m);
    if ctx.cs == [] {
      var r0 := JoinRow(if Tables.LinkedIds(ctx.db.genreLinks, m) == [] then None else Some(Tables.LinkedIds(ctx.db.genreLinks, m)[0]),
                        if Tables.LinkedIds(ctx.db.tagLinks, m) == [] then None else Some(Tables.LinkedIds(ctx.db.tagLinks, m)[0]));
      RowsOf(ctx.db, m, r0);
      assert r0 in rs;
    } else {
      forall r | r in rs ensures MatchCount(ctx.db, m, r, ctx.cs) > 0 <==> exists i :: 0 <= i < |ctx.cs| && InCategory(ctx.db, m, r, ctx.cs[i]) {
        MatchCountPositive(ctx.db, m, r, ctx.cs);
      }
    }
  }

  /** With no category, no search and no favourite filter, every recipe is listed. */
  lemma NoFilterListsAll(db: Tables.Db, sort: CardQuery.Sort, collation: Collation, m: int)
    ensures Included(Ctx(db, [], "", None, sort, collation), m) <==> m in db.menus
  {
    IncludedIff(Ctx(db, [], "", None, sort, collation), m);
  }

  /** The favourite filter keeps exactly the user's favourites among what would be listed without it. */
  lemma FavNarrows(ctx: Ctx, u: int, m: int)
    requires Evaluable(ctx.cs, ctx.search) && ctx.fav == None
    ensures Included(ctx.(fav := Some(u)), m) <==> Included(ctx, m) && (u, m) in ctx.db.favs
  {
    IncludedIff(ctx, m);
    IncludedIff(ctx.(fav := Some(u)), m);
  }

  /** A single genre category lists the recipes linked to one of its genres. */
  lemma GenreCategory(db: Tables.Db, ids: seq<string>, sort: CardQuery.Sort, collation: Collation, m: int)
    requires forall k :: 0 <= k < |ids| ==> IsNumeral(ids[k])
    ensures Included(Ctx(db, [CardQuery.Category("genre", ids)], "", None, sort, collation), m) <==>
      m in db.menus && exists g :: g in IdSet(ids) && Tables.Link(m, g) in db.genreLinks
  {
    var c := CardQuery.Category("genre", ids);
    var ctx := Ctx(db, [c], "", None, sort, collation);
    IncludedIff(ctx, m);
    var t0 := if Tables.LinkedIds(db.tagLinks, m) == [] then None else Some(Tables.LinkedIds(db.tagLinks, m)[0]);
    if m in db.menus && exists g :: g in IdSet(ids) && Tables.Link(m, g) in db.genreLinks {
      var g :| g in IdSet(ids) && Tables.Link(m, g) in db.genreLinks;
      var r := JoinRow(Some(g), t0);
      RowsOf(db, m, r);
      assert InCategory(db, m, r, ctx.cs[0]);
    }
    if Included(ctx, m) {
      var r, i :| r in Rows(db, m) && 0 <= i < 1 && InCategory(db, m, r, ctx.cs[i]);
      RowsOf(db, m, r);
    }
  }

  /** A single author category lists the recipes whose author is one of its ids. */
  lemma AuthorCategory(db: Tables.Db, ids: seq<string>, sort: CardQuery.Sort, collation: Collation, m: int)
    requires forall k :: 0 <= k < |ids| ==> IsNumeral(ids[k])
    ensures Included(Ctx(db, [CardQuery.Category("author", ids)], "", None, sort, collation), m) <==>
      m in db.menus && db.menus[m].authorId.Some? && db.menus[m].authorId.value in IdSet(ids)
  {
    var c := CardQuery.Category("author", ids);
    var ctx := Ctx(db, [c], "", None, sort, collation);
    IncludedIff(ctx, m);
    var g0 := if Tables.LinkedIds(db.genreLinks, m) == [] then None else Some(Tables.LinkedIds(db.genreLinks, m)[0]);
    var t0 := if Tables.LinkedIds(db.tagLinks, m) == [] then None else Some(Tables.LinkedIds(db.tagLinks, m)[0]);
    var r := JoinRow(g0, t0);
    RowsOf(db, m, r);
    assert r in Rows(db, m);
  }

  // ---------------------------------------------------------------------
  // The grouped row of a listed recipe
  // ---------------------------------------------------------------------

  /**
   * One result row before trimRow: the selected recipe columns, the author
   * name, is_favorite when the favourite filter is on, the genre and tag
   * names of the qualifying rows, and match_count.
   */
  datatype CardRow = CardRow(id: int, name: string, prepareTime: int, img: Option<string>,
                             authorId: Option<int>, author: Option<string>, isFavorite: Option<int>,
                             genres: set<string>, tags: set<string>, matchCount: nat)

  /** The rows of the group that pass the WHERE clause. */
  function QualifyingRows(ctx: Ctx, m: int): set<JoinRow>
  {
    set r | r in Rows(ctx.db, m) && Qualifies(ctx, m, r)
  }

  /** GROUP_CONCAT(DISTINCT g.name), as a set: the names of the qualifying rows' genres. */
  function GenreNames(ctx: Ctx, m: int): set<string>
  {
    set r | r in QualifyingRows(ctx, m) && r.genre.Some? && r.genre.value in ctx.db.genres :: ctx.db.genres[r.genre.value]
  }

  function TagNames(ctx: Ctx, m: int): set<string>
  {
    set r | r in QualifyingRows(ctx, m) && r.tag.Some? && r.tag.value in ctx.db.tags :: ctx.db.tags[r.tag.value]
  }

  /** match_count of the group: that of its first qualifying row. */
  function GroupMatchCount(ctx: Ctx, m: int): nat
  {
    match FirstQualifying(ctx, m, Rows(ctx.db, m))
    case Some(r) => MatchCount(ctx.db, m, r, ctx.cs)
    case None => 0
  }

  function Card(ctx: Ctx, withAuthorId: bool, m: int): (c: CardRow)
    requires Included(ctx, m)
    ensures c.id == m && c.matchCount <= |ctx.cs|
    ensures ctx.cs != [] ==> c.matchCount >= 1
    ensures c.isFavorite.Some? <==> ctx.fav.Some?
    ensures c.isFavorite.Some? ==> c.isFavorite.value == 1
  {
    var menu := ctx.db.menus[m];
    var author := if menu.authorId.Some? && menu.authorId.value in ctx.db.authors
                  then Some(ctx.db.authors[menu.authorId.value]) else None;
    CardRow(m, menu.name, menu.prepareTime, menu.img,
            if withAuthorId then menu.authorId else None, author,
            if ctx.fav.Some? then Some(1) else None,
            GenreNames(ctx, m), TagNames(ctx, m), GroupMatchCount(ctx, m))
  }

  /**
   * With a genre category alone, the genre names on a card are names of the
   * listed genres: the WHERE clause filters the joined rows before
   * GROUP_CONCAT sees them, so the other genres of the recipe are not shown.
   */
  lemma GenreFilterNarrowsGenres(db: Tables.Db, ids: seq<string>, sort: CardQuery.Sort, collation: Collation, m: int, name: string)
    requires name in GenreNames(Ctx(db, [CardQuery.Category("genre", ids)], "", None, sort, collation), m)
    ensures exists g :: g in IdSet(ids) && g in db.genres && db.genres[g] == name
  {
    var ctx := Ctx(db, [CardQuery.Category("genre", ids)], "", None, sort, collation);
    var r :| r in QualifyingRows(ctx, m) && r.genre.Some? && r.genre.value in db.genres && db.genres[r.genre.value] == name;
    MatchCountPositive(db, m, r, ctx.cs);
  }

  // ---------------------------------------------------------------------
  // Ranking
  // ---------------------------------------------------------------------

  /**
   * A column's collation, as the weight string MySQL compares in place of a
   * value: ORDER BY m.name orders the names by their weights, and names with
   * equal weights tie. The schema, and so the collation of m.name, is a
   * parameter of this reading.
   */
  type Collation = string -> seq<int>

  /** A binary collation: the weights are the character codes. */
  function CodePoints(s: string): seq<int>
  {
    seq(|s|, i requires 0 <= i < |s| => s[i] as int)
  }

  /** A collation that ignores the case of ASCII letters. */
  function CaseFolded(s: string): seq<int>
  {
    seq(|s|, i requires 0 <= i < |s| => if 'A' <= s[i] <= 'Z' then s[i] as int + 32 else s[i] as int)
  }

  /** Lexicographic order on weight strings. */
  predicate WeightLe(a: seq<int>, b: seq<int>)
  {
    a == [] || (b != [] && (a[0] < b[0] || (a[0] == b[0] && WeightLe(a[1..], b[1..]))))
  }

  lemma {:induction false} WeightLeTotal(a: seq<int>, b: seq<int>)
    ensures WeightLe(a, b) || WeightLe(b, a)
  {
    if a != [] && b != [] && a[0] == b[0] {
      WeightLeTotal(a[1..], b[1..]);
    }
  }

  lemma {:induction false} WeightLeTrans(a: seq<int>, b: seq<int>, c: seq<int>)
    requires WeightLe(a, b) && WeightLe(b, c)
    ensures WeightLe(a, c)
  {
    if a != [] && b != [] && c != [] && a[0] == b[0] && b[0] == c[0] {
      WeightLeTrans(a[1..], b[1..], c[1..]);
    }
  }

  function CtimeOf(db: Tables.Db, m: int): int
  {
    if m in db.menus then db.menus[m].ctime else 0
  }

  function NameOf(db: Tables.Db, m: int): string
  {
    if m in db.menus then db.menus[m].name else ""
  }

  /** What the ORDER BY clause looks at: match_count, m.ctime and the weights of m.name. */
  datatype SortKey = SortKey(matchCount: nat, ctime: int, weights: seq<int>)

  function KeyOf(ctx: Ctx, m: int): SortKey
  {
    SortKey(GroupMatchCount(ctx, m), CtimeOf(ctx.db, m), ctx.collation(NameOf(ctx.db, m)))
  }

  /** ORDER BY match_count DESC, then the sort map: a row with key `a` may come before one with key `b`. */
  predicate KeyLe(s: CardQuery.Sort, a: SortKey, b: SortKey)
  {
    a.matchCount > b.matchCount ||
    (a.matchCount == b.matchCount &&
     match s
     case CtimeAsc => a.ctime <= b.ctime
     case CtimeDesc => a.ctime >= b.ctime
     case NameAsc => WeightLe(a.weights, b.weights)
     case NameDesc => WeightLe(b.weights, a.weights))
  }

  predicate Precedes(ctx: Ctx, a: int, b: int)
  {
    KeyLe(ctx.sort, KeyOf(ctx, a), KeyOf(ctx, b))
  }

  lemma KeyLeTotal(s: CardQuery.Sort, a: SortKey, b: SortKey)
    ensures KeyLe(s, a, b) || KeyLe(s, b, a)
  {
    WeightLeTotal(a.weights, b.weights);
  }

  lemma KeyLeTrans(s: CardQuery.Sort, a: SortKey, b: SortKey, c: SortKey)
    requires KeyLe(s, a, b) && KeyLe(s, b, c)
    ensures KeyLe(s, a, c)
  {
    if a.matchCount == b.matchCount == c.matchCount {
      match s
      case NameAsc => WeightLeTrans(a.weights, b.weights, c.weights);
      case NameDesc => WeightLeTrans(c.weights, b.weights, a.weights);
      case CtimeAsc =>
      case CtimeDesc =>
    }
  }

  /**
   * With equal match_count under NAME_ASC, a case-insensitive collation puts
   * "appel" before "Banaan", where the character codes ('B' is 66, 'a' is 97)
   * put it after.
   */
  lemma NameOrderFollowsCollation()
    ensures KeyLe(CardQuery.NameAsc, SortKey(1, 0, CaseFolded("appel")), SortKey(1, 0, CaseFolded("Banaan")))
    ensures !KeyLe(CardQuery.NameAsc, SortKey(1, 0, CaseFolded("Banaan")), SortKey(1, 0, CaseFolded("appel")))
    ensures !KeyLe(CardQuery.NameAsc, SortKey(1, 0, CodePoints("appel")), SortKey(1, 0, CodePoints("Banaan")))
  {
  }

  /** The key of an id in a precomputed key table. */
  function KeyAt(keys: map<int, SortKey>, x: int): SortKey
  {
    if x in keys then keys[x] else SortKey(0, 0, [])
  }

  predicate Ranked(s: CardQuery.Sort, keys: map<int, SortKey>, xs: seq<int>)
  {
    forall i, j :: 0 <= i < j < |xs| ==> KeyLe(s, KeyAt(keys, xs[i]), KeyAt(keys, xs[j]))
  }

  function Insert(s: CardQuery.Sort, keys: map<int, SortKey>, x: int, xs: seq<int>): seq<int>
  {
    if xs == [] then [x]
    else if KeyLe(s, KeyAt(keys, x), KeyAt(keys, xs[0])) then [x] + xs
    else [xs[0]] + Insert(s, keys, x, xs[1..])
  }

  function SortIds(s: CardQuery.Sort, keys: map<int, SortKey>, xs: seq<int>): seq<int>
  {
    if xs == [] then [] else Insert(s, keys, xs[0], SortIds(s, keys, xs[1..]))
  }

  lemma {:induction false} InsertPerm(s: CardQuery.Sort, keys: map<int, SortKey>, x: int, xs: seq<int>)
    ensures multiset(Insert(s, keys, x, xs)) == multiset(xs) + multiset{x}
  {
    if xs != [] && !KeyLe(s, KeyAt(keys, x), KeyAt(keys, xs[0])) {
      InsertPerm(s, keys, x, xs[1..]);
      assert xs == [xs[0]] + xs[1..];
    }
  }

  /** Every id of `xs` may come after `y`. */
  predicate Above(s: CardQuery.Sort, keys: map<int, SortKey>, y: int, xs: seq<int>)
  {
    forall k :: 0 <= k < |xs| ==> KeyLe(s, KeyAt(keys, y), KeyAt(keys, xs[k]))
  }

  /** A ranked list is its head followed by a ranked tail above the head, and conversely. */
  lemma RankedCons(s: CardQuery.Sort, keys: map<int, SortKey>, y: int, xs: seq<int>)
    ensures Ranked(s, keys, [y] + xs) <==> Above(s, keys, y, xs) && Ranked(s, keys, xs)
  {
    var r := [y] + xs;
    if Above(s, keys, y, xs) && Ranked(s, keys, xs) {
      forall i, j | 0 <= i < j < |r| ensures KeyLe(s, KeyAt(keys, r[i]), KeyAt(keys, r[j])) {
        if i > 0 {
          assert r[i] == xs[i - 1] && r[j] == xs[j - 1];
        } else {
          assert r[j] == xs[j - 1];
        }
      }
    }
    if Ranked(s, keys, r) {
      forall k | 0 <= k < |xs| ensures KeyLe(s, KeyAt(keys, y), KeyAt(keys, xs[k])) {
        assert r[0] == y && r[k + 1] == xs[k];
      }
      forall i, j | 0 <= i < j < |xs| ensures KeyLe(s, KeyAt(keys, xs[i]), KeyAt(keys, xs[j])) {
        assert r[i + 1] == xs[i] && r[j + 1] == xs[j];
      }
    }
  }

  /** Inserting an id that may come after `y` into a list above `y` keeps it above `y`. */
  lemma {:induction false} InsertAbove(s: CardQuery.Sort, keys: map<int, SortKey>, y: int, x: int, xs: seq<int>)
    requires KeyLe(s, KeyAt(keys, y), KeyAt(keys, x)) && Above(s, keys, y, xs)
    ensures Above(s, keys, y, Insert(s, keys, x, xs))
  {
    if xs != [] && !KeyLe(s, KeyAt(keys, x), KeyAt(keys, xs[0])) {
      InsertAbove(s, keys, y, x, xs[1..]);
      var r := Insert(s, keys, x, xs);
      forall k | 0 <= k < |r| ensures KeyLe(s, KeyAt(keys, y), KeyAt(keys, r[k])) {
        if k > 0 {
          assert r[k] == Insert(s, keys, x, xs[1..])[k - 1];
        }
      }
    } else if xs != [] {
      var r := [x] + xs;
      forall k | 0 <= k < |r| ensures KeyLe(s, KeyAt(keys, y), KeyAt(keys, r[k])) {
        if k > 0 {
          assert r[k] == xs[k - 1];
        }
      }
    }
  }

  lemma {:induction false} InsertRanked(s: CardQuery.Sort, keys: map<int, SortKey>, x: int, xs: seq<int>)
    requires Ranked(s, keys, xs)
    ensures Ranked(s, keys, Insert(s, keys, x, xs))
  {
    if xs == [] {
    } else {
      assert xs == [xs[0]] + xs[1..];
      RankedCons(s, keys, xs[0], xs[1..]);
      if KeyLe(s, KeyAt(keys, x), KeyAt(keys, xs[0])) {
        forall k | 0 <= k < |xs| ensures KeyLe(s, KeyAt(keys, x), KeyAt(keys, xs[k])) {
          if k > 0 {
            assert xs[k] == xs[1..][k - 1];
            KeyLeTrans(s, KeyAt(keys, x), KeyAt(keys, xs[0]), KeyAt(keys, xs[k]));
          }
        }
        RankedCons(s, keys, x, xs);
      } else {
        KeyLeTotal(s, KeyAt(keys, x), KeyAt(keys, xs[0]));
        InsertRanked(s, keys, x, xs[1..]);
        InsertAbove(s, keys, xs[0], x, xs[1..]);
        RankedCons(s, keys, xs[0], Insert(s, keys, x, xs[1..]));
      }
    }
  }

  lemma {:induction false} SortIdsRanked(s: CardQuery.Sort, keys: map<int, SortKey>, xs: seq<int>)
    ensures Ranked(s, keys, SortIds(s, keys, xs))
  {
    if xs != [] {
      SortIdsRanked(s, keys, xs[1..]);
      InsertRanked(s, keys, xs[0], SortIds(s, keys, xs[1..]));
    }
  }

  lemma {:induction false} SortIdsPerm(s: CardQuery.Sort, keys: map<int, SortKey>, xs: seq<int>)
    ensures multiset(SortIds(s, keys, xs)) == multiset(xs)
  {
    if xs != [] {
      var sorted := SortIds(s, keys, xs[1..]);
      calc {
        multiset(SortIds(s, keys, xs));
        multiset(Insert(s, keys, xs[0], sorted));
        { InsertPerm(s, keys, xs[0], sorted); }
        multiset(sorted) + multiset{xs[0]};
        { SortIdsPerm(s, keys, xs[1..]); }
        multiset(xs[1..]) + multiset{xs[0]};
        multiset([xs[0]] + xs[1..]);
        { assert [xs[0]] + xs[1..] == xs; }
        multiset(xs);
      }
    }
  }

  /** The members of a finite set, each once, in an arbitrary order. */
  ghost function Enumerate(s: set<int>): (xs: seq<int>)
    ensures |xs| == |s|
    ensures forall x :: x in xs <==> x in s
    ensures forall x :: x in s ==> multiset(xs)[x] == 1
    decreases |s|
  {
    if |s| == 0 then []
    else
      ElementOf(s);
      var x :| x in s;
      var rest := Enumerate(s - {x});
      [x] + rest
  }

  lemma ElementOf(s: set<int>)
    requires |s| > 0
    ensures exists x :: x in s
  {
    if forall x :: x !in s {
      assert false;
    }
  }

  ghost function IncludedSet(ctx: Ctx): set<int>
  {
    set m | m in ctx.db.menus && Included(ctx, m)
  }

  /** The sort key of every listed recipe. */
  ghost function Keys(ctx: Ctx): map<int, SortKey>
  {
    map m | m in IncludedSet(ctx) :: KeyOf(ctx, m)
  }

  /** The ranked ids of every listed recipe. */
  ghost function Ranking(ctx: Ctx): seq<int>
  {
    SortIds(ctx.sort, Keys(ctx), Enumerate(IncludedSet(ctx)))
  }

  /** LIMIT count OFFSET start. */
  function Window<T>(xs: seq<T>, start: nat, count: nat): (w: seq<T>)
    ensures |w| == if start >= |xs| then 0 else if start + count <= |xs| then count else |xs| - start
    ensures forall k :: 0 <= k < |w| ==> w[k] == xs[start + k]
  {
    if start >= |xs| then [] else if start + count <= |xs| then xs[start..start + count] else xs[start..]
  }

  function Cards(ctx: Ctx, withAuthorId: bool, ids: seq<int>): (cards: seq<CardRow>)
    requires forall k :: 0 <= k < |ids| ==> Included(ctx, ids[k])
    ensures |cards| == |ids|
    ensures forall k :: 0 <= k < |ids| ==> cards[k] == Card(ctx, withAuthorId, ids[k])
  {
    seq(|ids|, k requires 0 <= k < |ids| => Card(ctx, withAuthorId, ids[k]))
  }

  /** What fetchCards returns before trimRow: the total and the rows of the window. */
  datatype Fetched = Fetched(total: nat, data: seq<CardRow>)

  /** The context the statements of CardQuery.Plan set up. */
  function PlanCtx(db: Tables.Db, f: CardQuery.Filters, search: string, sort: int, collation: Collation): Ctx
  {
    var s := CardQuery.SortFrom(sort);
    Ctx(db, CardQuery.Categories(f), search, CardQuery.FavUser(f),
        if s.Some? then s.value else CardQuery.CtimeDesc, collation)
  }

  /** Both statements of fetchCards, read on `db`. */
  ghost function Evaluate(db: Tables.Db, sc: CardQuery.Schema, f: CardQuery.Filters, search: string,
                          start: nat, count: nat, sort: int, collation: Collation): Fetched
    requires Covered(f, search)
  {
    var ctx := PlanCtx(db, f, search, sort, collation);
    var ranked := Ranking(ctx);
    RankingIncluded(ctx);
    var ids := Window(ranked, start, count);
    WindowIncluded(ctx, ranked, ids, start, count);
    Fetched(|IncludedSet(ctx)|, Cards(ctx, sc.selectsAuthorId, ids))
  }

  lemma WindowIncluded(ctx: Ctx, ranked: seq<int>, ids: seq<int>, start: nat, count: nat)
    requires forall x :: x in ranked ==> Included(ctx, x)
    requires ids == Window(ranked, start, count)
    ensures forall k :: 0 <= k < |ids| ==> Included(ctx, ids[k])
  {
    forall k | 0 <= k < |ids| ensures Included(ctx, ids[k]) {
      assert ids[k] == ranked[start + k];
    }
  }

  /** Sorting the members of a set: each member once, ranked by the key table. */
  lemma SortedSet(s: CardQuery.Sort, keys: map<int, SortKey>, S: set<int>)
    ensures var r := SortIds(s, keys, Enumerate(S));
      |r| == |S| && (forall x :: x in r <==> x in S) && Ranked(s, keys, r) &&
      (forall i, j :: 0 <= i < j < |r| ==> r[i] != r[j])
  {
    var xs := Enumerate(S);
    SortIdsRanked(s, keys, xs);
    SortIdsPerm(s, keys, xs);
    PermutationOfSet(SortIds(s, keys, xs), xs, S);
  }

  /** A permutation of an enumeration of a set holds each member once. */
  lemma PermutationOfSet(r: seq<int>, xs: seq<int>, S: set<int>)
    requires multiset(r) == multiset(xs)
    requires |xs| == |S| && (forall x :: x in xs <==> x in S) && (forall x :: x in S ==> multiset(xs)[x] == 1)
    ensures |r| == |S| && (forall x :: x in r <==> x in S)
    ensures forall i, j :: 0 <= i < j < |r| ==> r[i] != r[j]
  {
    assert |r| == |multiset(r)| == |multiset(xs)| == |xs|;
    forall x ensures x in r <==> x in S {
      assert x in r <==> x in multiset(r);
      assert x in xs <==> x in multiset(xs);
    }
    forall i, j | 0 <= i < j < |r| ensures r[i] != r[j] {
      TwoPositions(r, i, j);
      assert r[i] in multiset(r);
    }
  }

  lemma RankingIncluded(ctx: Ctx)
    ensures forall x :: x in Ranking(ctx) ==> Included(ctx, x)
    ensures forall i, j :: 0 <= i < j < |Ranking(ctx)| ==> Ranking(ctx)[i] != Ranking(ctx)[j]
    ensures forall i, j :: 0 <= i < j < |Ranking(ctx)| ==> Precedes(ctx, Ranking(ctx)[i], Ranking(ctx)[j])
    ensures |Ranking(ctx)| == |IncludedSet(ctx)|
  {
    var keys := Keys(ctx);
    var S := IncludedSet(ctx);
    SortedSet(ctx.sort, keys, S);
    var r := Ranking(ctx);
    forall i, j | 0 <= i < j < |r| ensures Precedes(ctx, r[i], r[j]) {
      assert r[i] in S && r[j] in S;
      assert KeyAt(keys, r[i]) == KeyOf(ctx, r[i]) && KeyAt(keys, r[j]) == KeyOf(ctx, r[j]);
    }
  }

  /** total counts every listed recipe once, whatever the window. */
  lemma EvaluateTotal(db: Tables.Db, sc: CardQuery.Schema, f: CardQuery.Filters, search: string,
                      start: nat, count: nat, sort: int, collation: Collation, start': nat, count': nat)
    requires Covered(f, search)
    ensures Evaluate(db, sc, f, search, start, count, sort, collation).total ==
            Evaluate(db, sc, f, search, start', count', sort, collation).total ==
            |IncludedSet(PlanCtx(db, f, search, sort, collation))|
  {
  }

  /** The cards of the window, as Evaluate builds them. */
  lemma EvaluateCards(db: Tables.Db, sc: CardQuery.Schema, f: CardQuery.Filters, search: string,
                      start: nat, count: nat, sort: int, collation: Collation)
    requires Covered(f, search)
    ensures var ctx := PlanCtx(db, f, search, sort, collation);
      var ids := Window(Ranking(ctx), start, count);
      var r := Evaluate(db, sc, f, search, start, count, sort, collation);
      |r.data| == |ids| && (forall k :: 0 <= k < |ids| ==> r.data[k].id == ids[k])
  {
    var ctx := PlanCtx(db, f, search, sort, collation);
    RankingIncluded(ctx);
    var ranked := Ranking(ctx);
    var ids := Window(ranked, start, count);
    WindowIncluded(ctx, ranked, ids, start, count);
    assert Evaluate(db, sc, f, search, start, count, sort, collation).data == Cards(ctx, sc.selectsAuthorId, ids);
  }

  /** data holds at most `count` cards, each of a listed recipe. */
  lemma EvaluateData(db: Tables.Db, sc: CardQuery.Schema, f: CardQuery.Filters, search: string,
                     start: nat, count: nat, sort: int, collation: Collation)
    requires Covered(f, search)
    ensures var r := Evaluate(db, sc, f, search, start, count, sort, collation);
      var ctx := PlanCtx(db, f, search, sort, collation);
      |r.data| == (if start >= r.total then 0 else if start + count <= r.total then count else r.total - start) &&
      (forall k :: 0 <= k < |r.data| ==> Included(ctx, r.data[k].id))
  {
    var ctx := PlanCtx(db, f, search, sort, collation);
    var ranked := Ranking(ctx);
    RankingIncluded(ctx);
    var ids := Window(ranked, start, count);
    WindowIncluded(ctx, ranked, ids, start, count);
    EvaluateCards(db, sc, f, search, start, count, sort, collation);
    var r := Evaluate(db, sc, f, search, start, count, sort, collation);
    assert r.total == |ranked|;
    forall k | 0 <= k < |r.data| ensures Included(ctx, r.data[k].id) {
      assert r.data[k].id == ids[k];
    }
  }

  /**
   * The cards of the window are ranked by match_count and then the sort
   * map, and no recipe appears twice.
   */
  lemma EvaluateOrder(db: Tables.Db, sc: CardQuery.Schema, f: CardQuery.Filters, search: string,
                      start: nat, count: nat, sort: int, collation: Collation)
    requires Covered(f, search)
    ensures var r := Evaluate(db, sc, f, search, start, count, sort, collation);
      var ctx := PlanCtx(db, f, search, sort, collation);
      forall i, j :: 0 <= i < j < |r.data| ==> Precedes(ctx, r.data[i].id, r.data[j].id) && r.data[i].id != r.data[j].id
  {
    var ctx := PlanCtx(db, f, search, sort, collation);
    var ranked := Ranking(ctx);
    RankingIncluded(ctx);
    var ids := Window(ranked, start, count);
    EvaluateCards(db, sc, f, search, start, count, sort, collation);
    var r := Evaluate(db, sc, f, search, start, count, sort, collation);
    forall i, j | 0 <= i < j < |r.data| ensures Precedes(ctx, r.data[i].id, r.data[j].id) && r.data[i].id != r.data[j].id {
      assert r.data[i].id == ranked[start + i] && r.data[j].id == ranked[start + j];
    }
  }

  /** A value found at two positions of a sequence occurs in it at least twice. */
  lemma TwoPositions(xs: seq<int>, i: nat, j: nat)
    requires i < j < |xs|
    ensures xs[i] == xs[j] ==> multiset(xs)[xs[i]] >= 2
  {
    if xs[i] == xs[j] {
      var x := xs[i];
      assert xs == xs[..i] + [x] + xs[i + 1..j] + [x] + xs[j + 1..];
    }
  }
}
