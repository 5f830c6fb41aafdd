// The listing query of Wejv::fetchCards, in src/lib/wejv.php and in its
// older copy lib/wejv.php: from a filter map, a search string, a sort code
// and a page window it builds one ranked SELECT and one COUNT query over the
// same joins and the same WHERE clause. The two copies differ only in table
// and column names, which a Schema value carries. The statements are kept as
// structured clause lists; the fragments the code splices together (the
// match_count sum, the WHERE clause, the quoted search literal) are rendered
// to the exact text it produces.
module CardQuery {
  import opened Wrappers
  import Strings

  // ---------------------------------------------------------------------
  // The sort codes
  // ---------------------------------------------------------------------

  /** enum Sort: int. */
  datatype Sort = CtimeAsc | CtimeDesc | NameAsc | NameDesc

  function SortValue(s: Sort): int
  {
    match s
    case CtimeAsc => 1
    case CtimeDesc => 2
    case NameAsc => 3
    case NameDesc => 4
  }

  /** The case whose backing value is `code`, if any. */
  function SortFrom(code: int): (s: Option<Sort>)
    ensures s.Some? <==> 1 <= code <= 4
    ensures s.Some? ==> SortValue(s.value) == code
  {
    if code == 1 then Some(CtimeAsc)
    else if code == 2 then Some(CtimeDesc)
    else if code == 3 then Some(NameAsc)
    else if code == 4 then Some(NameDesc)
    else None
  }

  /** The entry of $sort_map for each case. */
  function SortClause(s: Sort): string
  {
    match s
    case CtimeAsc => "ctime ASC"
    case CtimeDesc => "ctime DESC"
    case NameAsc => "name ASC"
    case NameDesc => "name DESC"
  }

  /**
   * $orderBy: a Sort case is passed by its value; a code that is no case's
   * value falls back to "ctime DESC".
   */
  function OrderBy(code: int): (o: string)
    ensures SortFrom(code).Some? ==> o == SortClause(SortFrom(code).value)
    ensures SortFrom(code).None? ==> o == "ctime DESC"
  {
    match SortFrom(code)
    case Some(s) => SortClause(s)
    case None => "ctime DESC"
  }

  /** Every case is found again from its value, and its own clause is used. */
  lemma {:induction false} OrderBySort(s: Sort)
    ensures SortFrom(SortValue(s)) == Some(s)
    ensures OrderBy(SortValue(s)) == SortClause(s)
    ensures OrderBy(0) == OrderBy(SortValue(CtimeDesc))
  {
    match s
    case CtimeAsc =>
    case CtimeDesc =>
    case NameAsc =>
    case NameDesc =>
  }

  // ---------------------------------------------------------------------
  // The two schemas
  // ---------------------------------------------------------------------

  /**
   * Where the two copies differ: the recipe table, the two link tables, the
   * column through which link and favourite rows point at a recipe, the
   * preparation-time column, and whether m.author_id is selected.
   */
  datatype Schema = Schema(menuTable: string, genreLinkTable: string, tagLinkTable: string,
                           menuColumn: string, prepareColumn: string, selectsAuthorId: bool)

  /** src/lib/wejv.php. */
  const Current: Schema := Schema("menu", "menu_genre", "menu_tag", "menu_id", "prepareTime", true)

  /** lib/wejv.php. */
  const Legacy: Schema := Schema("menu_info", "menu_info_genre", "menu_info_tag", "menu_info_id", "prepare_time", false)

  datatype Join = LeftJoin(table: string, alias: string, on: string)

  /** $this->join_sql: the author, both link tables and the genre and tag names. */
  function BaseJoins(sc: Schema): seq<Join>
  {
    [LeftJoin("author", "a", "m.author_id = a.id"),
     LeftJoin(sc.genreLinkTable, "mg", "m.id = mg." + sc.menuColumn),
     LeftJoin("genre", "g", "mg.genre_id = g.id"),
     LeftJoin(sc.tagLinkTable, "mt", "m.id = mt." + sc.menuColumn),
     LeftJoin("tag", "t", "mt.tag_id = t.id")]
  }

  /** The join that brings in every favourite row of the recipe. */
  function FavJoin(sc: Schema): Join
  {
    LeftJoin("fav", "f", "m.id = f." + sc.menuColumn)
  }

  // ---------------------------------------------------------------------
  // The filter map
  // ---------------------------------------------------------------------

  /** A value of the decoded filter map; a list holds its elements as implode() prints them. */
  datatype FilterValue = List(items: seq<string>) | Int(n: int) | Str(s: string) | Bool(b: bool) | Null

  /** !empty($v). */
  predicate Truthy(v: FilterValue)
  {
    match v
    case List(items) => items != []
    case Int(n) => n != 0
    case Str(s) => !Strings.PhpEmpty(s)
    case Bool(b) => b
    case Null => false
  }

  /** PHP's (int) cast. */
  function IntCast(v: FilterValue): int
  {
    match v
    case List(items) => if items == [] then 0 else 1
    case Int(n) => n
    case Str(s) => Strings.Intval(s)
    case Bool(b) => if b then 1 else 0
    case Null => 0
  }

  /** A PHP array with string keys, in insertion order. */
  type Filters = seq<(string, FilterValue)>

  function Lookup(f: Filters, key: string): (v: Option<FilterValue>)
    ensures v.Some? <==> exists i :: 0 <= i < |f| && f[i].0 == key
    ensures v.Some? ==> exists i :: 0 <= i < |f| && f[i] == (key, v.value)
  {
    if f == [] then None
    else if f[0].0 == key then
      assert f[0] == (key, f[0].1);
      Some(f[0].1)
    else
      var r := Lookup(f[1..], key);
      assert forall i :: 1 <= i < |f| ==> f[i] == f[1..][i - 1];
      r
  }

  /** The favourite filter: a set, truthy fav entry, cast to int. */
  function FavUser(f: Filters): (u: Option<int>)
    ensures u.Some? <==> Lookup(f, "fav").Some? && Truthy(Lookup(f, "fav").value)
    ensures u.Some? ==> u.value == IntCast(Lookup(f, "fav").value)
  {
    match Lookup(f, "fav")
    case Some(v) => if Truthy(v) then Some(IntCast(v)) else None
    case None => None
  }

  /** One filter category that takes part in the query: its name and its id list. */
  datatype Category = Category(name: string, ids: seq<string>)

  /** Whether an entry survives unset($filters['fav']) and array_filter as a category. */
  predicate Listed(e: (string, FilterValue))
  {
    e.0 != "fav" && Truthy(e.1)
  }

  /** implode(',', $vals) needs an array: every listed entry holds a list. */
  predicate Implodable(f: Filters)
  {
    forall i :: 0 <= i < |f| && Listed(f[i]) ==> f[i].1.List?
  }

  /** The categories, in filter-map order. */
  function Categories(f: Filters): (cs: seq<Category>)
    ensures |cs| <= |f|
  {
    if f == [] then []
    else
      var e := f[|f| - 1];
      Categories(f[..|f| - 1]) + (if Listed(e) && e.1.List? then [Category(e.0, e.1.items)] else [])
  }

  /**
   * A category is exactly a listed entry with a non-empty list: the fav entry
   * and the empty values never become one.
   */
  lemma {:induction false} CategoriesOf(f: Filters)
    ensures forall c :: c in Categories(f) ==> c.name != "fav" && c.ids != []
    ensures forall c :: c in Categories(f) <==>
      exists i :: 0 <= i < |f| && Listed(f[i]) && f[i].1.List? && c == Category(f[i].0, f[i].1.items)
  {
    if f != [] {
      var init := f[..|f| - 1];
      CategoriesOf(init);
      assert forall i :: 0 <= i < |init| ==> init[i] == f[i];
    }
  }

  // ---------------------------------------------------------------------
  // The clause fragments
  // ---------------------------------------------------------------------

  /** implode($sep, $parts). */
  function Implode(sep: string, parts: seq<string>): string
  {
    if |parts| == 0 then ""
    else if |parts| == 1 then parts[0]
    else parts[0] + sep + Implode(sep, parts[1..])
  }

  /** The table alias of a category: mg for genre, mt for tag, m for anything else. */
  function Prefix(name: string): string
  {
    if name == "genre" then "mg" else if name == "tag" then "mt" else "m"
  }

  function Column(c: Category): string
  {
    Prefix(c.name) + "." + c.name + "_id"
  }

  /** The 0/1 term a category adds to match_count. */
  function MatchTerm(c: Category): string
  {
    "IF(" + Column(c) + " IN (" + Implode(",", c.ids) + "), 1, 0)"
  }

  /** The IN condition a category adds to the WHERE clause. */
  function InTerm(c: Category): string
  {
    Column(c) + " IN (" + Implode(",", c.ids) + ")"
  }

  function MatchTerms(cs: seq<Category>): (ts: seq<string>)
    ensures |ts| == |cs|
    ensures forall i :: 0 <= i < |cs| ==> ts[i] == MatchTerm(cs[i])
  {
    if cs == [] then [] else MatchTerms(cs[..|cs| - 1]) + [MatchTerm(cs[|cs| - 1])]
  }

  function InTerms(cs: seq<Category>): (ts: seq<string>)
    ensures |ts| == |cs|
    ensures forall i :: 0 <= i < |cs| ==> ts[i] == InTerm(cs[i])
  {
    if cs == [] then [] else InTerms(cs[..|cs| - 1]) + [InTerm(cs[|cs| - 1])]
  }

  /** The match_count expression: the sum of the match terms, or 0 without categories. */
  function MatchCountSql(cs: seq<Category>): string
  {
    if cs == [] then "0" else Implode(" + ", MatchTerms(cs))
  }

  // ---------------------------------------------------------------------
  // PDO::quote on MySQL and the way MySQL reads the literal back
  // ---------------------------------------------------------------------

  const CtrlZ: char := '\U{001A}'
  const Backspace: char := '\U{0008}'

  /** The characters the MySQL driver escapes with a backslash. */
  function EscapeChar(c: char): string
  {
    if c == '\0' then "\\0"
    else if c == '\n' then "\\n"
    else if c == '\r' then "\\r"
    else if c == '\\' then "\\\\"
    else if c == '\'' then "\\'"
    else if c == '"' then "\\\""
    else if c == CtrlZ then "\\Z"
    else [c]
  }

  function Escape(s: string): string
  {
    if s == [] then [] else EscapeChar(s[0]) + Escape(s[1..])
  }

  /** $this->conn->quote($s). */
  function Quote(s: string): string
  {
    "'" + Escape(s) + "'"
  }

  /** What MySQL makes of a backslash followed by `c` inside a string literal. */
  function Unescape(c: char): string
  {
    if c == '0' then "\0"
    else if c == 'b' then [Backspace]
    else if c == 'n' then "\n"
    else if c == 'r' then "\r"
    else if c == 't' then "\t"
    else if c == 'Z' then [CtrlZ]
    else if c == '%' then "\\%"
    else if c == '_' then "\\_"
    else [c]
  }

  /**
   * MySQL's reading of the inside of a single-quoted literal: the value up to
   * the closing quote and the text after it; None when the literal never ends.
   */
  function ReadLiteralBody(s: string): Option<(string, string)>
    decreases |s|
  {
    if s == [] then None
    else if s[0] == '\'' then
      if |s| >= 2 && s[1] == '\'' then
        match ReadLiteralBody(s[2..])
        case Some((v, rest)) => Some(("'" + v, rest))
        case None => None
      else Some(("", s[1..]))
    else if s[0] == '\\' && |s| >= 2 then
      match ReadLiteralBody(s[2..])
      case Some((v, rest)) => Some((Unescape(s[1]) + v, rest))
      case None => None
    else
      match ReadLiteralBody(s[1..])
      case Some((v, rest)) => Some(([s[0]] + v, rest))
      case None => None
  }

  function ReadLiteral(s: string): Option<(string, string)>
  {
    if s != [] && s[0] == '\'' then ReadLiteralBody(s[1..]) else None
  }

  /** Each escape sequence is read back as the character it escapes. */
  lemma EscapeCharUnescapes(c: char)
    ensures var e := EscapeChar(c);
      (|e| == 2 && e[0] == '\\' && Unescape(e[1]) == [c]) ||
      (e == [c] && c != '\'' && c != '\\')
  {
  }

  /** An escaped character in front of a literal body adds itself to the value read. */
  lemma EscapeCharReadsBack(c: char, tail: string, v: string, rest: string)
    requires ReadLiteralBody(tail) == Some((v, rest))
    ensures ReadLiteralBody(EscapeChar(c) + tail) == Some(([c] + v, rest))
  {
    var e := EscapeChar(c);
    EscapeCharUnescapes(c);
    if |e| == 2 {
      assert (e + tail)[0] == '\\' && (e + tail)[1] == e[1];
      assert (e + tail)[2..] == tail;
    } else {
      assert (e + tail)[0] == c;
      assert (e + tail)[1..] == tail;
    }
  }

  /**
   * An escaped string in front of text that ends the literal is read back as
   * exactly that string, with what follows the literal untouched.
   */
  lemma {:induction false} EscapedBodyReadsBack(s: string, t: string, rest: string)
    requires ReadLiteralBody(t) == Some(("", rest))
    ensures ReadLiteralBody(Escape(s) + t) == Some((s, rest))
  {
    if s == [] {
      assert Escape(s) + t == t;
    } else {
      var tail := Escape(s[1..]) + t;
      calc {
        ReadLiteralBody(Escape(s) + t);
        { EscapeFirst(s, t); }
        ReadLiteralBody(EscapeChar(s[0]) + tail);
        { EscapedBodyReadsBack(s[1..], t, rest); EscapeCharReadsBack(s[0], tail, s[1..], rest); }
        Some(([s[0]] + s[1..], rest));
        { assert [s[0]] + s[1..] == s; }
        Some((s, rest));
      }
    }
  }

  lemma EscapeFirst(s: string, after: string)
    requires s != []
    ensures Escape(s) + after == EscapeChar(s[0]) + (Escape(s[1..]) + after)
  {
  }

  /** A literal starts at a quote; its body is what follows. */
  lemma OpeningQuote(body: string)
    ensures ReadLiteral("'" + body) == ReadLiteralBody(body)
  {
    assert ("'" + body)[1..] == body;
  }

  /** A quote not followed by another ends the literal with an empty value. */
  lemma ClosingQuote(rest: string)
    requires rest == [] || rest[0] != '\''
    ensures ReadLiteralBody("'" + rest) == Some(("", rest))
  {
    assert ("'" + rest)[1..] == rest;
  }

  /**
   * The quoted search term is one literal whose value is exactly the term: a
   * quote, backslash or line break inside it cannot end the literal early,
   * so the term never becomes SQL text of its own.
   */
  lemma QuoteReadsBack(s: string, rest: string)
    requires rest == [] || rest[0] != '\''
    ensures ReadLiteral(Quote(s) + rest) == Some((s, rest))
  {
    var body := Escape(s) + ("'" + rest);
    ClosingQuote(rest);
    EscapedBodyReadsBack(s, "'" + rest, rest);
    assert Quote(s) + rest == "'" + body;
    OpeningQuote(body);
  }

  // ---------------------------------------------------------------------
  // The WHERE clause
  // ---------------------------------------------------------------------

  /** The search condition on recipe name, description and author name. */
  function SearchCondition(lit: string): string
  {
    "(m.name LIKE " + lit + " OR m.description LIKE " + lit + " OR a.name LIKE " + lit + ")"
  }

  /** The literal the search term becomes: the term between two LIKE wildcards, quoted. */
  function SearchLiteral(search: string): string
  {
    Quote("%" + search + "%")
  }

  const FavCondition: string := "(f.user_id = :favUserId)"

  /**
   * The conditions the WHERE clause ANDs together, in order: the OR of the
   * category IN terms, the search condition for a non-empty search, and the
   * favourite condition.
   */
  function Conjuncts(cs: seq<Category>, search: string, fav: bool): seq<string>
  {
    (if cs == [] then [] else ["(" + Implode(" OR ", InTerms(cs)) + ")"]) +
    (if Strings.PhpEmpty(search) then [] else [SearchCondition(SearchLiteral(search))]) +
    (if fav then [FavCondition] else [])
  }

  function WhereSql(conjuncts: seq<string>): string
  {
    if conjuncts == [] then "" else "WHERE " + Implode(" AND ", conjuncts)
  }

  // ---------------------------------------------------------------------
  // The two statements
  // ---------------------------------------------------------------------

  /**
   * A SELECT statement: its columns, FROM table, joins, WHERE text, GROUP BY
   * and ORDER BY lists, whether it ends in LIMIT :count OFFSET :start, and
   * the values bound to its named parameters.
   */
  datatype Select = Select(columns: seq<string>, from: string, joins: seq<Join>, where: string,
                           groupBy: seq<string>, orderBy: seq<string>, paged: bool,
                           params: map<string, int>)

  datatype CardQueries = CardQueries(rows: Select, total: Select)

  const IsFavoriteColumn: string := "IF" + "(f.user_id IS NOT NULL, 1, 0) AS is_favorite"

  function RowColumns(sc: Schema, fav: bool, matchCountSql: string): seq<string>
  {
    ["m.id", "m.name", "m." + sc.prepareColumn, "m.img"] +
    (if sc.selectsAuthorId then ["m.author_id"] else []) +
    ["a.name AS author"] +
    (if fav then [IsFavoriteColumn] else []) +
    ["GROUP_CONCAT(DISTINCT g.name) AS genres",
     "GROUP_CONCAT(DISTINCT t.name) AS tags",
     "(" + matchCountSql + ") AS match_count"]
  }

  /** bindValue(':favUserId', ...) when the favourite filter is on. */
  function BindFav(params: map<string, int>, fav: Option<int>): map<string, int>
  {
    if fav.Some? then params[":favUserId" := fav.value] else params
  }

  function Joins(sc: Schema, fav: bool): seq<Join>
  {
    BaseJoins(sc) + (if fav then [FavJoin(sc)] else [])
  }

  /** The rows statement and the COUNT statement over the same FROM, joins and WHERE. */
  function Statements(sc: Schema, fav: Option<int>, matchCountSql: string, where: string,
                      start: int, count: int, orderBy: string): CardQueries
  {
    var joins := Joins(sc, fav.Some?);
    var from := sc.menuTable + " m";
    CardQueries(
      Select(RowColumns(sc, fav.Some?, matchCountSql), from, joins, where,
             ["m.id"], ["match_count DESC", orderBy], true,
             BindFav(map[":start" := start, ":count" := count], fav)),
      Select(["COUNT(DISTINCT m.id)"], from, joins, where, [], [], false, BindFav(map[], fav)))
  }

  /** The two statements fetchCards sends, for filters it can build them from. */
  function Plan(sc: Schema, f: Filters, search: string, start: int, count: int, sort: int): CardQueries
  {
    var fav := FavUser(f);
    var cs := Categories(f);
    Statements(sc, fav, MatchCountSql(cs), WhereSql(Conjuncts(cs, search, fav.Some?)), start, count, OrderBy(sort))
  }

  /**
   * The foreach over the filter map: the fav entry (taken out by unset) and
   * the empty values (dropped by array_filter) are skipped; every other entry
   * adds its match term and its IN term. A value that is not an array makes
   * implode() throw, reported here as ok == false.
   */
  method CollectTerms(filters: Filters) returns (ok: bool, matchExprs: seq<string>, whereExprs: seq<string>)
    ensures ok <==> Implodable(filters)
    ensures ok ==> matchExprs == MatchTerms(Categories(filters)) && whereExprs == InTerms(Categories(filters))
  {
    matchExprs := [];
    whereExprs := [];
    for i := 0 to |filters|
      invariant Implodable(filters[..i])
      invariant matchExprs == MatchTerms(Categories(filters[..i]))
      invariant whereExprs == InTerms(Categories(filters[..i]))
    {
      var e := filters[i];
      CategoriesStep(filters, i);
      if Listed(e) {
        if !e.1.List? {
          return false, matchExprs, whereExprs;
        }
        var c := Category(e.0, e.1.items);
        TermsSnoc(Categories(filters[..i]), c);
        matchExprs := matchExprs + [MatchTerm(c)];
        whereExprs := whereExprs + [InTerm(c)];
      }
    }
    assert filters[..|filters|] == filters;
    ok := true;
  }

  lemma CategoriesStep(f: Filters, i: nat)
    requires i < |f|
    ensures Categories(f[..i + 1]) ==
      Categories(f[..i]) + (if Listed(f[i]) && f[i].1.List? then [Category(f[i].0, f[i].1.items)] else [])
    ensures Implodable(f[..i + 1]) <==> Implodable(f[..i]) && (Listed(f[i]) ==> f[i].1.List?)
  {
    assert f[..i + 1][..i] == f[..i];
    assert f[..i + 1][i] == f[i];
  }

  lemma TermsSnoc(cs: seq<Category>, c: Category)
    ensures MatchTerms(cs + [c]) == MatchTerms(cs) + [MatchTerm(c)]
    ensures InTerms(cs + [c]) == InTerms(cs) + [InTerm(c)]
  {
    assert (cs + [c])[..|cs|] == cs;
  }

  /**
   * $where_sql: the OR of the IN terms, then the search condition and the
   * favourite condition, each becoming the whole clause when it is still
   * empty and AND-ed onto it otherwise.
   */
  method BuildWhere(ghost cs: seq<Category>, whereExprs: seq<string>, search: string, favFilter: bool)
    returns (whereSql: string)
    requires whereExprs == InTerms(cs)
    ensures whereSql == WhereSql(Conjuncts(cs, search, favFilter))
  {
    whereSql := if whereExprs != [] then "WHERE (" + Implode(" OR ", whereExprs) + ")" else "";
    assert whereSql == WhereSql(Conjuncts(cs, "", false));

    if !Strings.PhpEmpty(search) {
      var lit := SearchLiteral(search);
      if Strings.PhpEmpty(whereSql) {
        whereSql := "WHERE " + SearchCondition(lit);
      } else {
        whereSql := whereSql + " AND " + SearchCondition(lit);
      }
    }
    WhereAppend(cs, search);

    if favFilter {
      if Strings.PhpEmpty(whereSql) {
        whereSql := "WHERE " + FavCondition;
      } else {
        whereSql := whereSql + " AND " + FavCondition;
      }
    }
    FavAppend(cs, search, favFilter);
    NoWhere(cs, search, false);
  }

  /**
   * fetchCards up to the point where the two statements are prepared and
   * their parameters bound. A listed value that is not an array makes
   * implode() throw.
   */
  method BuildQueries(sc: Schema, filters: Filters, search: string, start: int, count: int, sort: int)
    returns (r: Result<CardQueries>)
    ensures r.Ok? <==> Implodable(filters)
    ensures r.Ok? ==> r.value == Plan(sc, filters, search, start, count, sort)
  {
    var orderBy := OrderBy(sort);

    var favFilter := false;
    var favUserId := 0;
    var favEntry := Lookup(filters, "fav");
    if favEntry.Some? && Truthy(favEntry.value) {
      favFilter := true;
      favUserId := IntCast(favEntry.value);
    }

    var ok, matchExprs, whereExprs := CollectTerms(filters);
    if !ok {
      return Err("implode(): Argument #2 ($array) must be of type ?array");
    }
    ghost var cs := Categories(filters);
    var matchCountSql := if matchExprs != [] then Implode(" + ", matchExprs) else "0";
    var whereSql := BuildWhere(cs, whereExprs, search, favFilter);

    ghost var fav := FavUser(filters);
    assert favFilter == fav.Some? && (favFilter ==> favUserId == fav.value);
    var queries := Assemble(sc, favFilter, favUserId, matchCountSql, whereSql, start, count, orderBy);
    r := Ok(queries);
  }

  /** The join, the SQL texts and the bound parameters of the two statements. */
  method Assemble(sc: Schema, favFilter: bool, favUserId: int, matchCountSql: string, whereSql: string,
                  start: int, count: int, orderBy: string) returns (queries: CardQueries)
    ensures queries == Statements(sc, if favFilter then Some(favUserId) else None,
                                  matchCountSql, whereSql, start, count, orderBy)
  {
    var joins := BaseJoins(sc);
    if favFilter {
      joins := joins + [FavJoin(sc)];
    }
    var params := map[":start" := start, ":count" := count];
    var countParams: map<string, int> := map[];
    if favFilter {
      params := params[":favUserId" := favUserId];
      countParams := countParams[":favUserId" := favUserId];
    }
    var from := sc.menuTable + " m";
    var rows := Select(RowColumns(sc, favFilter, matchCountSql), from, joins, whereSql,
                       ["m.id"], ["match_count DESC", orderBy], true, params);
    var total := Select(["COUNT(DISTINCT m.id)"], from, joins, whereSql, [], [], false, countParams);
    queries := CardQueries(rows, total);
  }

  lemma ImplodeSnoc(sep: string, parts: seq<string>, x: string)
    requires parts != []
    ensures Implode(sep, parts + [x]) == Implode(sep, parts) + sep + x
    decreases |parts|
  {
    if |parts| > 1 {
      ImplodeSnoc(sep, parts[1..], x);
      assert (parts + [x])[1..] == parts[1..] + [x];
    } else {
      assert parts + [x] == [parts[0], x];
    }
  }

  lemma WhereSnoc(conj: seq<string>, c: string)
    ensures WhereSql(conj + [c]) == if conj == [] then "WHERE " + c else WhereSql(conj) + " AND " + c
  {
    if conj != [] {
      ImplodeSnoc(" AND ", conj, c);
    } else {
      assert conj + [c] == [c];
    }
  }

  lemma WhereAppend(cs: seq<Category>, search: string)
    ensures WhereSql(Conjuncts(cs, search, false)) ==
      if Strings.PhpEmpty(search) then WhereSql(Conjuncts(cs, "", false))
      else if cs == [] then "WHERE " + SearchCondition(SearchLiteral(search))
      else WhereSql(Conjuncts(cs, "", false)) + " AND " + SearchCondition(SearchLiteral(search))
  {
    var base := Conjuncts(cs, "", false);
    if !Strings.PhpEmpty(search) {
      assert Conjuncts(cs, search, false) == base + [SearchCondition(SearchLiteral(search))];
      WhereSnoc(base, SearchCondition(SearchLiteral(search)));
    } else {
      assert Conjuncts(cs, search, false) == base;
    }
  }

  lemma FavAppend(cs: seq<Category>, search: string, fav: bool)
    ensures WhereSql(Conjuncts(cs, search, fav)) ==
      if !fav then WhereSql(Conjuncts(cs, search, false))
      else if Conjuncts(cs, search, false) == [] then "WHERE " + FavCondition
      else WhereSql(Conjuncts(cs, search, false)) + " AND " + FavCondition
  {
    var base := Conjuncts(cs, search, false);
    if fav {
      assert Conjuncts(cs, search, fav) == base + [FavCondition];
      WhereSnoc(base, FavCondition);
    } else {
      assert Conjuncts(cs, search, fav) == base;
    }
  }

  // ---------------------------------------------------------------------
  // What the plan promises
  // ---------------------------------------------------------------------

  /**
   * match_count sums one 0/1 term per category and is the literal 0 exactly
   * when no category remains; the WHERE clause then starts with the OR of one
   * IN term per category.
   */
  lemma ClauseTerms(f: Filters, search: string, fav: bool)
    ensures var cs := Categories(f);
      |MatchTerms(cs)| == |InTerms(cs)| == |cs| &&
      (MatchCountSql(cs) == "0" <==> cs == []) &&
      (cs != [] ==> Conjuncts(cs, search, fav)[0] == "(" + Implode(" OR ", InTerms(cs)) + ")")
  {
    MatchCountZero(Categories(f));
  }

  /** match_count is the literal 0 exactly when there is no category. */
  lemma MatchCountZero(cs: seq<Category>)
    ensures MatchCountSql(cs) == "0" <==> cs == []
  {
    if cs != [] {
      var t := MatchTerms(cs)[0];
      ImplodeStart(" + ", MatchTerms(cs));
      assert t == "IF(" + Column(cs[0]) + " IN (" + Implode(",", cs[0].ids) + "), 1, 0)";
      assert MatchCountSql(cs)[0] == t[0] == 'I';
    }
  }

  /** An implode of non-empty pieces starts with the first piece. */
  lemma ImplodeStart(sep: string, parts: seq<string>)
    requires parts != []
    ensures |Implode(sep, parts)| >= |parts[0]| && Implode(sep, parts)[..|parts[0]|] == parts[0]
  {
  }

  lemma FavJoinIff(sc: Schema, fav: bool)
    ensures FavJoin(sc) in Joins(sc, fav) <==> fav
  {
    assert FavJoin(sc) !in BaseJoins(sc) by {
      assert forall j :: j in BaseJoins(sc) ==> j.alias != "f";
    }
  }

  lemma FavColumnIff(sc: Schema, fav: bool, matchCountSql: string)
    ensures IsFavoriteColumn in RowColumns(sc, fav, matchCountSql) <==> fav
  {
    var mc := "(" + matchCountSql + ") AS match_count";
    var prep := "m." + sc.prepareColumn;
    assert IsFavoriteColumn[0] == 'I';
    assert mc[0] == '(' && prep[0] == 'm';
    assert IsFavoriteColumn != mc && IsFavoriteColumn != prep;
    assert RowColumns(sc, fav, matchCountSql) ==
      ["m.id", "m.name", prep, "m.img"] + (if sc.selectsAuthorId then ["m.author_id"] else []) +
      ["a.name AS author"] + (if fav then [IsFavoriteColumn] else []) +
      ["GROUP_CONCAT(DISTINCT g.name) AS genres", "GROUP_CONCAT(DISTINCT t.name) AS tags", mc];
  }

  /** The category conjunct opens with a table alias other than f. */
  lemma CategoryConjunctNotFav(cs: seq<Category>)
    requires cs != []
    ensures "(" + Implode(" OR ", InTerms(cs)) + ")" != FavCondition
  {
    var t := InTerms(cs)[0];
    InTermStart(cs[0]);
    assert t[0] == 'm';
    var body := Implode(" OR ", InTerms(cs));
    ImplodeStart(" OR ", InTerms(cs));
    assert body[0] == t[0];
    assert ("(" + body + ")")[1] == body[0];
    assert FavCondition[1] == 'f';
  }

  /** Every IN term opens with one of the aliases m, mg or mt. */
  lemma InTermStart(c: Category)
    ensures |InTerm(c)| > 0 && InTerm(c)[0] == 'm'
  {
    assert InTerm(c) == Prefix(c.name) + ("." + c.name + "_id" + " IN (" + Implode(",", c.ids) + ")");
  }

  /** The search conjunct opens with m.name, not f.user_id. */
  lemma SearchConjunctNotFav(search: string)
    ensures SearchCondition(SearchLiteral(search)) != FavCondition
  {
    assert SearchCondition(SearchLiteral(search))[1] == 'm';
    assert FavCondition[1] == 'f';
  }

  lemma FavConditionIff(cs: seq<Category>, search: string, fav: bool)
    ensures FavCondition in Conjuncts(cs, search, fav) <==> fav
    ensures fav ==> Conjuncts(cs, search, fav) == Conjuncts(cs, search, false) + [FavCondition]
  {
    var conj := Conjuncts(cs, search, false);
    forall k | 0 <= k < |conj| ensures conj[k] != FavCondition {
      if cs != [] && k == 0 {
        CategoryConjunctNotFav(cs);
      } else {
        SearchConjunctNotFav(search);
        assert conj[k] == SearchCondition(SearchLiteral(search));
      }
    }
    if fav {
      assert Conjuncts(cs, search, fav) == conj + [FavCondition];
    } else {
      assert Conjuncts(cs, search, fav) == conj;
    }
  }

  lemma BindFavIff(start: int, count: int, fav: Option<int>)
    ensures var p := BindFav(map[":start" := start, ":count" := count], fav);
      (":favUserId" in p <==> fav.Some?) && (fav.Some? ==> p[":favUserId"] == fav.value) &&
      p[":start"] == start && p[":count"] == count
    ensures var q := BindFav(map[], fav);
      (":favUserId" in q <==> fav.Some?) && (fav.Some? ==> q[":favUserId"] == fav.value) &&
      ":start" !in q && ":count" !in q
  {
    assert |":favUserId"| != |":start"| && |":favUserId"| != |":count"| && ":start"[1] != ":count"[1];
  }

  /**
   * The favourite filter is all or nothing: with a truthy fav entry the fav
   * join, the is_favorite column, the user condition (AND-ed last) and the
   * bound user id all appear, and without one none of them does.
   */
  lemma FavParts(sc: Schema, f: Filters, search: string, start: int, count: int, sort: int)
    ensures var p := Plan(sc, f, search, start, count, sort);
      var fav := FavUser(f).Some?;
      var conj := Conjuncts(Categories(f), search, fav);
      (fav <==> FavJoin(sc) in p.rows.joins) &&
      (fav <==> FavJoin(sc) in p.total.joins) &&
      (fav <==> IsFavoriteColumn in p.rows.columns) &&
      (fav <==> FavCondition in conj) &&
      (fav <==> ":favUserId" in p.rows.params) &&
      (fav ==> p.rows.params[":favUserId"] == p.total.params[":favUserId"] == IntCast(Lookup(f, "fav").value) &&
               conj[|conj| - 1] == FavCondition)
  {
    var fav := FavUser(f).Some?;
    var cs := Categories(f);
    FavJoinIff(sc, fav);
    FavColumnIff(sc, fav, MatchCountSql(cs));
    FavConditionIff(cs, search, fav);
    BindFavIff(start, count, FavUser(f));
  }

  /**
   * A non-empty search adds one condition that tests name, description and
   * author name against one literal whose value is the term between two %
   * wildcards; without categories that condition is the whole WHERE clause.
   */
  lemma SearchPart(cs: seq<Category>, search: string)
    requires !Strings.PhpEmpty(search)
    ensures SearchCondition(SearchLiteral(search)) in Conjuncts(cs, search, false)
    ensures ReadLiteral(SearchLiteral(search) + " OR") == Some(("%" + search + "%", " OR"))
    ensures cs == [] ==> WhereSql(Conjuncts(cs, search, false)) == "WHERE " + SearchCondition(SearchLiteral(search))
  {
    QuoteReadsBack("%" + search + "%", " OR");
    var conj := Conjuncts(cs, search, false);
    if cs == [] {
      assert conj == [SearchCondition(SearchLiteral(search))];
    } else {
      assert conj[1] == SearchCondition(SearchLiteral(search));
    }
  }

  /** Without categories, search or favourite filter there is no WHERE clause at all. */
  lemma NoWhere(cs: seq<Category>, search: string, fav: bool)
    ensures WhereSql(Conjuncts(cs, search, fav)) == "" <==> cs == [] && Strings.PhpEmpty(search) && !fav
  {
  }

  /**
   * The COUNT query has the rows query's FROM, joins, WHERE and favourite
   * parameter, and neither its ORDER BY nor its window: the total does not
   * depend on start, count or the sort code.
   */
  lemma CountIgnoresWindow(sc: Schema, f: Filters, search: string, start: int, count: int, sort: int,
                           start': int, count': int, sort': int)
    ensures var p := Plan(sc, f, search, start, count, sort);
      p.total == Plan(sc, f, search, start', count', sort').total &&
      p.total.from == p.rows.from && p.total.joins == p.rows.joins && p.total.where == p.rows.where &&
      p.total.columns == ["COUNT(DISTINCT m.id)"] && !p.total.paged && p.total.orderBy == [] &&
      ":start" !in p.total.params && ":count" !in p.total.params
  {
  }

  /** Rows are ranked by match_count first and by the sort map second, one row per recipe. */
  lemma RowOrder(sc: Schema, f: Filters, search: string, start: int, count: int, sort: int)
    ensures var p := Plan(sc, f, search, start, count, sort);
      p.rows.orderBy == ["match_count DESC", OrderBy(sort)] && p.rows.groupBy == ["m.id"] &&
      p.rows.paged && p.rows.params[":start"] == start && p.rows.params[":count"] == count
  {
  }
}
