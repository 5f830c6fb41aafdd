// The write side of Wejv on an in-memory database: favourites, the
// get-or-create lookup of genre and tag names, fetchInfo, deleteRecipe,
// updateRecipe and insertMenu. A failing statement inside a transaction is an
// input `fault` carrying the exception's message; the rollback that follows
// it leaves the state as it was.
module Store {
  import opened Wrappers
  import opened Tables
  import Strings
  import Rows

  // ---------------------------------------------------------------------
  // Values the operations are specified with
  // ---------------------------------------------------------------------

  /** No two ids of a name table carry the same name. */
  predicate UniqueNames(names: map<int, string>)
  {
    forall i, j :: i in names && j in names && names[i] == names[j] ==> i == j
  }

  predicate NoDup<T(==)>(xs: seq<T>)
  {
    forall i, j :: 0 <= i < j < |xs| ==> xs[i] != xs[j]
  }

  function SetOf(xs: seq<string>): set<string>
  {
    set x | x in xs
  }

  /** The names a recipe is linked to: the links of the recipe whose id names a row of the table. */
  function LinkedNames(links: seq<Link>, table: map<int, string>, m: int): set<string>
  {
    set l | l in links && l.menuId == m && l.refId in table :: table[l.refId]
  }

  /**
   * A recipe whose link rows are the same, and whose linked ids all name a
   * row (as the foreign key demands), keeps its names when the table only
   * gains ids.
   */
  lemma LinkedNamesKept(links: seq<Link>, table: map<int, string>, links': seq<Link>, table': map<int, string>,
                        m: int, added: seq<string>)
    requires Extends(table, table', added)
    requires forall l: Link :: l.menuId == m ==> (l in links' <==> l in links)
    requires forall l :: l in links && l.menuId == m ==> l.refId in table
    ensures LinkedNames(links', table', m) == LinkedNames(links, table, m)
  {
  }

  lemma LinkedNamesSnoc(links: seq<Link>, l: Link, table: map<int, string>, m: int)
    ensures LinkedNames(links + [l], table, m) ==
      LinkedNames(links, table, m) + (if l.menuId == m && l.refId in table then {table[l.refId]} else {})
  {
    assert forall k :: k in links + [l] <==> k in links || k == l;
  }

  /**
   * GROUP_CONCAT(DISTINCT name) read in link-table order: every linked name
   * once, at its first link.
   */
  function ConcatOrder(links: seq<Link>, table: map<int, string>, m: int): (xs: seq<string>)
    ensures SetOf(xs) == LinkedNames(links, table, m)
    ensures NoDup(xs)
  {
    if links == [] then []
    else
      var init := links[..|links| - 1];
      var l := links[|links| - 1];
      var xs := ConcatOrder(init, table, m);
      assert links == init + [l];
      LinkedNamesSnoc(init, l, table, m);
      if l.menuId == m && l.refId in table && table[l.refId] !in xs then xs + [table[l.refId]] else xs
  }

  /** The favourite pairs after toggling one pair. */
  function Toggle(favs: set<(int, int)>, p: (int, int)): (r: set<(int, int)>)
    ensures p in r <==> p !in favs
    ensures r - {p} == favs - {p}
  {
    if p in favs then favs - {p} else favs + {p}
  }

  /** Toggling the same pair twice restores the favourites. */
  lemma ToggleTwice(favs: set<(int, int)>, p: (int, int))
    ensures Toggle(Toggle(favs, p), p) == favs
  {
  }

  /** d is a with some elements left out, the rest in their order. */
  predicate Subsequence(d: seq<string>, a: seq<string>)
    decreases |a|
  {
    d == [] || (a != [] && ((d[0] == a[0] && Subsequence(d[1..], a[1..])) || Subsequence(d, a[1..])))
  }

  /**
   * array_diff($a, $b): a with the elements found in b left out, the others
   * kept in their order, each as often as it occurs in a.
   */
  function Diff(a: seq<string>, b: seq<string>): (d: seq<string>)
    ensures forall x :: x in d <==> x in a && x !in b
    ensures Subsequence(d, a)
    ensures forall x :: multiset(d)[x] == if x in b then 0 else multiset(a)[x]
    ensures |d| <= |a|
  {
    if a == [] then []
    else
      var rest := Diff(a[1..], b);
      assert a == [a[0]] + a[1..];
      assert forall x :: x in a <==> x == a[0] || x in a[1..];
      if a[0] in b then rest
      else
        assert ([a[0]] + rest)[1..] == rest;
        [a[0]] + rest
  }

  /**
   * The DELETE ... JOIN ... WHERE menu_id = m AND name IN (remove) of
   * updateRecipe: the links of recipe m whose name is listed go, the others
   * stay in order.
   */
  function Unlink(links: seq<Link>, table: map<int, string>, m: int, remove: seq<string>): (r: seq<Link>)
    ensures forall l :: l in r <==> l in links && !(l.menuId == m && l.refId in table && table[l.refId] in remove)
    ensures NoDup(links) ==> NoDup(r)
  {
    if links == [] then []
    else
      var rest := Unlink(links[1..], table, m, remove);
      assert forall l :: l in links <==> l == links[0] || l in links[1..];
      assert NoDup(links) ==> NoDup(links[1..]) && links[0] !in links[1..];
      if links[0].menuId == m && links[0].refId in table && table[links[0].refId] in remove then rest
      else [links[0]] + rest
  }

  /** Unlinking removes exactly the listed names from the recipe's names. */
  lemma UnlinkNames(links: seq<Link>, table: map<int, string>, m: int, remove: seq<string>)
    ensures LinkedNames(Unlink(links, table, m, remove), table, m) == LinkedNames(links, table, m) - SetOf(remove)
  {
    var r := Unlink(links, table, m, remove);
    forall x | x in LinkedNames(links, table, m) - SetOf(remove)
      ensures x in LinkedNames(r, table, m)
    {
      var l :| l in links && l.menuId == m && l.refId in table && table[l.refId] == x;
      assert l in r;
    }
  }

  /** One link row per id, in order. */
  function LinksTo(m: int, ids: seq<int>): (ls: seq<Link>)
    ensures |ls| == |ids|
    ensures forall k :: 0 <= k < |ids| ==> ls[k] == Link(m, ids[k])
  {
    seq(|ids|, k requires 0 <= k < |ids| => Link(m, ids[k]))
  }

  lemma {:induction false} LinkedIdsAppend(a: seq<Link>, b: seq<Link>, m: int)
    ensures LinkedIds(a + b, m) == LinkedIds(a, m) + LinkedIds(b, m)
  {
    if a == [] {
      assert a + b == b;
    } else {
      assert (a + b)[0] == a[0];
      assert (a + b)[1..] == a[1..] + b;
      LinkedIdsAppend(a[1..], b, m);
    }
  }

  lemma {:induction false} LinkedIdsTo(m: int, ids: seq<int>)
    ensures LinkedIds(LinksTo(m, ids), m) == ids
  {
    if ids != [] {
      assert LinksTo(m, ids)[1..] == LinksTo(m, ids[1..]);
      LinkedIdsTo(m, ids[1..]);
    }
  }

  /**
   * A recipe that had no link rows is, after its rows are appended, linked
   * to exactly the given ids, in the given order.
   */
  lemma AppendedLinks(links: seq<Link>, m: int, ids: seq<int>)
    requires LinkedIds(links, m) == []
    ensures LinkedIds(links + LinksTo(m, ids), m) == ids
  {
    LinkedIdsAppend(links, LinksTo(m, ids), m);
    LinkedIdsTo(m, ids);
  }

  // ---------------------------------------------------------------------
  // fetchInfo
  // ---------------------------------------------------------------------

  function OptInt(o: Option<int>): Rows.Value
  {
    if o.Some? then Rows.Int(o.value) else Rows.Null
  }

  function OptStr(o: Option<string>): Rows.Value
  {
    if o.Some? then Rows.Str(o.value) else Rows.Null
  }

  /** A GROUP_CONCAT value: NULL over no names, else the names joined by commas. */
  function Concat(names: seq<string>): Rows.Value
  {
    if names == [] then Rows.Null else Rows.Str(Strings.Join(names, ','))
  }

  /**
   * The columns of the fetchInfo SELECT as a row. The author id and the two
   * GROUP_CONCAT columns come last.
   */
  function Columns(name: Rows.Value, prepareTime: Rows.Value, img: Rows.Value, personNum: Rows.Value,
                   ingredients: Rows.Value, description: Rows.Value, preparation: Rows.Value, ctime: Rows.Value,
                   author: Rows.Value, authorId: Rows.Value, genres: Rows.Value, tags: Rows.Value): (row: Rows.Row)
    ensures "author_id" in row && row["author_id"] == authorId
    ensures "genres" in row && row["genres"] == genres
    ensures "tags" in row && row["tags"] == tags
  {
    map["name" := name, "prepareTime" := prepareTime, "img" := img, "personNum" := personNum,
        "ingredients" := ingredients, "description" := description, "preparation" := preparation,
        "ctime" := ctime, "author" := author, "genres" := genres, "tags" := tags, "author_id" := authorId]
  }

  /**
   * The one row the fetchInfo SELECT yields. It aggregates without GROUP BY,
   * so a missing recipe still gives a row, with every column NULL.
   */
  function InfoRow(db: Db, id: int): Rows.Row
  {
    if id in db.menus then
      var m := db.menus[id];
      Columns(Rows.Str(m.name), Rows.Int(m.prepareTime), OptStr(m.img), Rows.Int(m.personNum),
              Rows.Str(m.ingredients), Rows.Str(m.description), Rows.Str(m.preparation), Rows.Int(m.ctime),
              if m.authorId.Some? && m.authorId.value in db.authors then Rows.Str(db.authors[m.authorId.value]) else Rows.Null,
              OptInt(m.authorId),
              Concat(ConcatOrder(db.genreLinks, db.genres, id)), Concat(ConcatOrder(db.tagLinks, db.tags, id)))
    else
      Columns(Rows.Null, Rows.Null, Rows.Null, Rows.Null, Rows.Null, Rows.Null, Rows.Null, Rows.Null,
              Rows.Null, Rows.Null, Rows.Null, Rows.Null)
  }

  /** fetchInfo: the row above after trimRow. */
  function InfoOf(db: Db, id: int): Rows.Row
  {
    Rows.TrimRow(InfoRow(db, id))
  }

  /** `$info['genre'] ?? []` and `$info['tag'] ?? []`. */
  function Items(v: Rows.Value): seq<string>
  {
    if v.List? then v.items else []
  }

  function InfoGenres(db: Db, id: int): seq<string>
  {
    Items(Rows.Get(InfoOf(db, id), "genre"))
  }

  function InfoTags(db: Db, id: int): seq<string>
  {
    Items(Rows.Get(InfoOf(db, id), "tag"))
  }

  /**
   * fetchInfo never answers "not found": its row is never empty, so the
   * `!$info` tests of deleteRecipe and updateRecipe are always false. For a
   * missing recipe every column is NULL and the lists are empty.
   */
  lemma InfoAlwaysRow(db: Db, id: int)
    ensures InfoOf(db, id) != map[]
    ensures id !in db.menus ==>
      Rows.Get(InfoOf(db, id), "author_id") == Rows.Null && InfoGenres(db, id) == [] && InfoTags(db, id) == []
  {
    assert "genre" in InfoOf(db, id);
  }

  /** The author_id fetchInfo reports: the recipe's, or NULL for a missing recipe. */
  function InfoAuthorId(db: Db, m: int): Option<int>
  {
    if m in db.menus then db.menus[m].authorId else None
  }

  lemma InfoAuthorColumn(db: Db, m: int)
    ensures Rows.Get(InfoOf(db, m), "author_id") == OptInt(InfoAuthorId(db, m))
  {
  }

  /** Linked names that survive the GROUP_CONCAT / explode round trip. */
  predicate CleanNames(links: seq<Link>, table: map<int, string>, m: int)
  {
    (forall x :: x in LinkedNames(links, table, m) ==> ',' !in x) &&
    LinkedNames(links, table, m) != {""} && LinkedNames(links, table, m) != {"0"}
  }

  /** With clean names, the names fetchInfo lists are exactly the recipe's linked names. */
  lemma ConcatNames(links: seq<Link>, table: map<int, string>, m: int)
    requires CleanNames(links, table, m)
    ensures SetOf(Items(Rows.List(Rows.Names(Concat(ConcatOrder(links, table, m)))))) == LinkedNames(links, table, m)
  {
    var xs := ConcatOrder(links, table, m);
    if xs != [] {
      assert forall i :: 0 <= i < |xs| ==> xs[i] in SetOf(xs);
      Rows.NamesRoundTrip(xs);
    }
  }

  lemma InfoGenreNames(db: Db, id: int)
    requires id in db.menus && CleanNames(db.genreLinks, db.genres, id)
    ensures SetOf(InfoGenres(db, id)) == LinkedNames(db.genreLinks, db.genres, id)
  {
    ConcatNames(db.genreLinks, db.genres, id);
  }

  lemma InfoTagNames(db: Db, id: int)
    requires id in db.menus && CleanNames(db.tagLinks, db.tags, id)
    ensures SetOf(InfoTags(db, id)) == LinkedNames(db.tagLinks, db.tags, id)
  {
    ConcatNames(db.tagLinks, db.tags, id);
  }

  // ---------------------------------------------------------------------
  // deleteRecipe
  // ---------------------------------------------------------------------

  /** getAuthorId: the user's author id ((int) of NULL is 0), or false (None) without a user_author row. */
  function AuthorIdOf(userAuthors: map<int, Option<int>>, userId: int): (a: Option<int>)
    ensures a.Some? <==> userId in userAuthors
    ensures a.Some? && userAuthors[userId].Some? ==> a.value == userAuthors[userId].value
  {
    if userId in userAuthors then Some(if userAuthors[userId].Some? then userAuthors[userId].value else 0)
    else None
  }

  /**
   * Who may delete a recipe: the role "admin", or a non-zero user whose
   * author id equals the recipe's non-NULL author_id.
   */
  predicate Authorized(db: Db, menuId: int, userId: int, role: string)
  {
    role == "admin" ||
    (userId != 0 && AuthorIdOf(db.userAuthors, userId).Some? && InfoAuthorId(db, menuId).Some? &&
     InfoAuthorId(db, menuId).value == AuthorIdOf(db.userAuthors, userId).value)
  }

  /** A recipe without an author can only be deleted by an admin. */
  lemma NullAuthorAdminOnly(db: Db, menuId: int, userId: int, role: string)
    requires InfoAuthorId(db, menuId) == None
    ensures Authorized(db, menuId, userId, role) <==> role == "admin"
  {
  }

  /** The state after the four DELETE statements of deleteRecipe. */
  function DeleteMenu(db: Db, m: int): Db
  {
    db.(menus := db.menus - {m},
        genreLinks := WithoutMenu(db.genreLinks, m), tagLinks := WithoutMenu(db.tagLinks, m),
        favs := set p | p in db.favs && p.1 != m)
  }

  lemma {:induction false} WithoutMenuGone(links: seq<Link>, m: int)
    ensures LinkedIds(WithoutMenu(links, m), m) == []
  {
    if links != [] {
      WithoutMenuGone(links[1..], m);
      if links[0].menuId != m {
        assert ([links[0]] + WithoutMenu(links[1..], m))[1..] == WithoutMenu(links[1..], m);
      }
    }
  }

  lemma {:induction false} WithoutMenuOthers(links: seq<Link>, m: int, x: int)
    requires x != m
    ensures LinkedIds(WithoutMenu(links, m), x) == LinkedIds(links, x)
  {
    if links != [] {
      WithoutMenuOthers(links[1..], m, x);
      if links[0].menuId != m {
        assert ([links[0]] + WithoutMenu(links[1..], m))[1..] == WithoutMenu(links[1..], m);
      }
    }
  }

  /**
   * Nothing of the deleted recipe remains (row, links, favourites), and the
   * row, the links in order and the favourites of every other recipe are as
   * they were.
   */
  lemma DeleteMenuEffect(db: Db, m: int)
    ensures m !in DeleteMenu(db, m).menus
    ensures LinkedIds(DeleteMenu(db, m).genreLinks, m) == [] && LinkedIds(DeleteMenu(db, m).tagLinks, m) == []
    ensures forall u :: (u, m) !in DeleteMenu(db, m).favs
    ensures forall x :: x != m ==>
      (x in DeleteMenu(db, m).menus <==> x in db.menus) &&
      (x in db.menus ==> DeleteMenu(db, m).menus[x] == db.menus[x]) &&
      LinkedIds(DeleteMenu(db, m).genreLinks, x) == LinkedIds(db.genreLinks, x) &&
      LinkedIds(DeleteMenu(db, m).tagLinks, x) == LinkedIds(db.tagLinks, x) &&
      (forall u :: (u, x) in DeleteMenu(db, m).favs <==> (u, x) in db.favs)
  {
    var d := DeleteMenu(db, m);
    WithoutMenuGone(db.genreLinks, m);
    WithoutMenuGone(db.tagLinks, m);
    forall x | x != m
      ensures LinkedIds(d.genreLinks, x) == LinkedIds(db.genreLinks, x) &&
              LinkedIds(d.tagLinks, x) == LinkedIds(db.tagLinks, x)
    {
      WithoutMenuOthers(db.genreLinks, m, x);
      WithoutMenuOthers(db.tagLinks, m, x);
    }
  }

  // ---------------------------------------------------------------------
  // Records passed to the store
  // ---------------------------------------------------------------------

  /** The record updateRecipe receives; img is present only for a converted upload. */
  datatype RecipeUpdate = RecipeUpdate(id: int, name: string, prepareTime: int, personNum: int,
                                       description: string, preparation: string, ingredients: string,
                                       genres: seq<string>, tags: seq<string>, img: Option<string>)

  /** The UPDATE menu SET ... of updateRecipe on one row: the image only when a new one is given. */
  function Updated(m: Menu, data: RecipeUpdate): (u: Menu)
    ensures u.img == (if data.img.Some? then data.img else m.img)
    ensures u.authorId == m.authorId && u.ctime == m.ctime
    ensures u.name == data.name && u.prepareTime == data.prepareTime && u.personNum == data.personNum
    ensures u.description == data.description && u.preparation == data.preparation && u.ingredients == data.ingredients
  {
    var u := m.(name := data.name, prepareTime := data.prepareTime, personNum := data.personNum,
                description := data.description, preparation := data.preparation, ingredients := data.ingredients);
    if data.img.Some? then u.(img := data.img) else u
  }

  /** The record insertMenu receives: the recipe columns and the genre and tag ids to link. */
  datatype NewMenu = NewMenu(name: string, prepareTime: int, personNum: int, authorId: Option<int>,
                             description: string, preparation: string, ingredients: string,
                             img: Option<string>, genres: seq<int>, tags: seq<int>)

  /** The menu row insertMenu writes; ctime is the database's timestamp at insertion. */
  function MenuOf(data: NewMenu, now: int): Menu
  {
    Menu(data.name, data.prepareTime, data.personNum, data.authorId, data.description, data.preparation,
         data.ingredients, data.img, now)
  }

  datatype Outcome = Success | Failure(message: string)

  // ---------------------------------------------------------------------
  // A name table (genre or tag) with its link table
  // ---------------------------------------------------------------------

  /**
   * The names after a run of get-or-create lookups keep every id they had, and each new id carries
   * one of the allowed names.
   */
  ghost predicate Extends(before: map<int, string>, after: map<int, string>, allowed: seq<string>)
  {
    (forall k :: k in before ==> k in after && after[k] == before[k]) &&
    (forall k :: k in after && k !in before ==> after[k] in allowed)
  }

  /**
   * The genre (or tag) table with its AUTO_INCREMENT counter, and the
   * menu_genre (or menu_tag) link rows in insertion order.
   */
  class NameTable {
    var names: map<int, string>
    var nextId: int
    var links: seq<Link>

    /** Names are unique and every id is a positive id handed out before nextId. */
    ghost predicate Valid()
      reads this
    {
      UniqueNames(names) && 1 <= nextId && (forall i :: i in names ==> 1 <= i < nextId)
    }

    constructor ()
      ensures names == map[] && nextId == 1 && links == []
      ensures Valid()
    {
      names := map[];
      nextId := 1;
      links := [];
    }

    /**
     * getOrCreateId: the id of an existing name, with nothing changed;
     * otherwise one new row with the next id. Names stay unique.
     */
    method GetOrCreateId(name: string) returns (id: int)
      requires Valid()
      modifies this
      ensures Valid()
      ensures id in names && names[id] == name
      ensures name in old(names).Values ==> names == old(names) && nextId == old(nextId)
      ensures name !in old(names).Values ==>
        id == old(nextId) && names == old(names)[id := name] && nextId == old(nextId) + 1
      ensures links == old(links)
    {
      if exists k :: k in names && names[k] == name {
        // the id found is positive, so `if ($id)` returns it
        id :| id in names && names[id] == name;
      } else {
        id := nextId;
        names := names[id := name];
        nextId := nextId + 1;
      }
    }

    /** One pass of updateRecipe's foreach: get or create the name, then link it unless already linked. */
    method LinkName(menuId: int, name: string)
      requires Valid()
      modifies this
      ensures Valid()
      ensures forall k :: k in old(names) ==> k in names && names[k] == old(names)[k]
      ensures forall k :: k in names && k !in old(names) ==> names[k] == name
      ensures forall l :: l in old(links) ==> l in links
      ensures forall l :: l in links && l !in old(links) ==> l.menuId == menuId && l.refId in names && names[l.refId] == name
      ensures NoDup(old(links)) ==> NoDup(links)
      ensures LinkedNames(links, names, menuId) == old(LinkedNames(links, names, menuId)) + {name}
    {
      var id := GetOrCreateId(name);
      if Link(menuId, id) !in links {
        links := links + [Link(menuId, id)];
      }
      NamesGrow(old(links), old(names), links, names, menuId, name, id);
    }

    /**
     * The genre (or tag) half of updateRecipe: link every submitted name,
     * then unlink the existing names that were not submitted. The recipe ends
     * up with the submitted names and those of its names the caller did not
     * list as existing; other recipes' links are untouched, and no duplicate
     * link row is created.
     */
    method Relink(menuId: int, submitted: seq<string>, existing: seq<string>)
      requires Valid()
      modifies this
      ensures Valid()
      ensures LinkedNames(links, names, menuId) ==
        SetOf(submitted) + (old(LinkedNames(links, names, menuId)) - SetOf(existing))
      ensures forall l: Link :: l.menuId != menuId ==> (l in links <==> l in old(links))
      ensures NoDup(old(links)) ==> NoDup(links)
      ensures forall k :: k in old(names) ==> k in names && names[k] == old(names)[k]
      ensures forall k :: k in names && k !in old(names) ==> names[k] in submitted
    {
      var i := 0;
      while i < |submitted|
        invariant 0 <= i <= |submitted|
        invariant Valid()
        invariant forall k :: k in old(names) ==> k in names && names[k] == old(names)[k]
        invariant forall k :: k in names && k !in old(names) ==> names[k] in submitted[..i]
        invariant forall l :: l in old(links) ==> l in links
        invariant forall l :: l in links && l !in old(links) ==> l.menuId == menuId
        invariant NoDup(old(links)) ==> NoDup(links)
        invariant LinkedNames(links, names, menuId) == old(LinkedNames(links, names, menuId)) + SetOf(submitted[..i])
      {
        assert submitted[..i + 1] == submitted[..i] + [submitted[i]];
        LinkName(menuId, submitted[i]);
        i := i + 1;
      }
      assert submitted[..i] == submitted;
      var remove := Diff(existing, submitted);
      if remove != [] {
        UnlinkNames(links, names, menuId, remove);
        links := Unlink(links, names, menuId, remove);
      }
      assert SetOf(remove) == SetOf(existing) - SetOf(submitted);
    }

    /** The foreach of insertMenu: one link row per id, in list order. */
    method AppendLinks(menuId: int, ids: seq<int>)
      modifies this
      ensures links == old(links) + LinksTo(menuId, ids)
      ensures names == old(names) && nextId == old(nextId)
    {
      var i := 0;
      while i < |ids|
        invariant 0 <= i <= |ids|
        invariant links == old(links) + LinksTo(menuId, ids[..i])
        invariant names == old(names) && nextId == old(nextId)
      {
        assert LinksTo(menuId, ids[..i + 1]) == LinksTo(menuId, ids[..i]) + [Link(menuId, ids[i])];
        links := links + [Link(menuId, ids[i])];
        i := i + 1;
      }
      assert ids[..i] == ids;
    }
  }

  /**
   * Linking one name: the recipe's names grow by exactly that name. A new
   * id may also name links that pointed at no row before; those are then
   * links to the new name as well.
   */
  lemma NamesGrow(links: seq<Link>, table: map<int, string>, links': seq<Link>, table': map<int, string>,
                  m: int, n: string, id: int)
    requires forall k :: k in table ==> k in table' && table'[k] == table[k]
    requires forall k :: k in table' && k !in table ==> table'[k] == n
    requires forall l :: l in links ==> l in links'
    requires forall l :: l in links' && l !in links ==> l.menuId == m && l.refId in table' && table'[l.refId] == n
    requires Link(m, id) in links' && id in table' && table'[id] == n
    ensures LinkedNames(links', table', m) == LinkedNames(links, table, m) + {n}
  {
    forall x | x in LinkedNames(links', table', m)
      ensures x in LinkedNames(links, table, m) + {n}
    {
      var l :| l in links' && l.menuId == m && l.refId in table' && table'[l.refId] == x;
      if l in links && l.refId in table {
        assert x == table[l.refId];
      }
    }
    forall x | x in LinkedNames(links, table, m)
      ensures x in LinkedNames(links', table', m)
    {
      var l :| l in links && l.menuId == m && l.refId in table && table[l.refId] == x;
      assert l in links';
    }
    assert n in LinkedNames(links', table', m) by {
      assert Link(m, id) in links';
    }
  }

  // ---------------------------------------------------------------------
  // The store
  // ---------------------------------------------------------------------

  /** The Wejv store: the tables it reads and writes. */
  class Wejv {
    var menus: map<int, Menu>
    var nextMenuId: int
    var authors: map<int, string>
    var favs: set<(int, int)>
    var users: set<int>
    var userAuthors: map<int, Option<int>>
    const genres: NameTable
    const tags: NameTable

    ghost predicate Valid()
      reads this, genres, tags
    {
      genres != tags && genres.Valid() && tags.Valid() &&
      1 <= nextMenuId && (forall i :: i in menus ==> 1 <= i < nextMenuId)
    }

    /** The tables as one value. */
    function Snapshot(): Db
      reads this, genres, tags
    {
      Db(menus, authors, genres.names, tags.names, genres.links, tags.links, favs, users, userAuthors)
    }

    constructor ()
      ensures Valid() && fresh(genres) && fresh(tags)
      ensures Snapshot() == Db(map[], map[], map[], map[], [], [], {}, {}, map[])
    {
      menus := map[];
      nextMenuId := 1;
      authors := map[];
      favs := {};
      users := {};
      userAuthors := map[];
      genres := new NameTable();
      tags := new NameTable();
    }

    /** isFavorite: membership of the pair. */
    function IsFavorite(userId: int, menuId: int): bool
      reads this
    {
      (userId, menuId) in favs
    }

    /**
     * toggleFavorite: removes an existing pair and answers false, or adds the
     * pair and answers true; nothing else changes.
     */
    method ToggleFavorite(userId: int, menuId: int) returns (added: bool)
      modifies this
      ensures added == !old(IsFavorite(userId, menuId)) && IsFavorite(userId, menuId) == added
      ensures favs == Toggle(old(favs), (userId, menuId))
      ensures Snapshot() == old(Snapshot()).(favs := favs) && nextMenuId == old(nextMenuId)
    {
      if (userId, menuId) in favs {
        favs := favs - {(userId, menuId)};
        added := false;
      } else {
        favs := favs + {(userId, menuId)};
        added := true;
      }
    }

    /** getAuthorId. */
    function GetAuthorId(userId: int): (a: Option<int>)
      reads this
      ensures a == AuthorIdOf(userAuthors, userId)
    {
      if userId in userAuthors then Some(if userAuthors[userId].Some? then userAuthors[userId].value else 0)
      else None
    }

    /**
     * deleteRecipe: a non-positive id is invalid; an unauthorised caller gets
     * "Not authorized" and nothing changes; an authorised call removes the
     * recipe's links, favourites and row, unless a statement fails, in which
     * case the transaction is rolled back.
     */
    method DeleteRecipe(menuId: int, userId: int, role: string, fault: Option<string>) returns (r: Outcome)
      requires Valid()
      modifies this, genres, tags
      ensures Valid() && nextMenuId == old(nextMenuId)
      ensures menuId <= 0 ==> r == Failure("Invalid recipe ID") && Snapshot() == old(Snapshot())
      ensures menuId > 0 && !Authorized(old(Snapshot()), menuId, userId, role) ==>
        r == Failure("Not authorized") && Snapshot() == old(Snapshot())
      ensures menuId > 0 && Authorized(old(Snapshot()), menuId, userId, role) && fault.Some? ==>
        r == Failure("Delete failed: " + fault.value) && Snapshot() == old(Snapshot())
      ensures menuId > 0 && Authorized(old(Snapshot()), menuId, userId, role) && fault.None? ==>
        r == Success && Snapshot() == DeleteMenu(old(Snapshot()), menuId)
    {
      if menuId <= 0 {
        return Failure("Invalid recipe ID");
      }
      var allowed := MayDelete(menuId, userId, role);
      if !allowed {
        return Failure("Not authorized");
      }
      if fault.Some? {
        return Failure("Delete failed: " + fault.value);
      }
      RemoveMenu(menuId);
      return Success;
    }

    /**
     * The permission check of deleteRecipe: an admin may delete; otherwise a
     * logged-in user whose author id equals the recipe's non-NULL author_id.
     */
    method MayDelete(menuId: int, userId: int, role: string) returns (allowed: bool)
      ensures allowed == Authorized(Snapshot(), menuId, userId, role)
    {
      var info := InfoOf(Snapshot(), menuId);
      InfoAuthorColumn(Snapshot(), menuId);
      var isAdmin := role == "admin";
      var isAuthor := false;
      if userId != 0 && !isAdmin {
        var userAuthorId := GetAuthorId(userId);
        if userAuthorId.Some? && Rows.Get(info, "author_id") != Rows.Null {
          isAuthor := Rows.Get(info, "author_id") == Rows.Int(userAuthorId.value);
        }
      }
      allowed := isAdmin || isAuthor;
    }

    /** The four DELETE statements of deleteRecipe, committed. */
    method RemoveMenu(menuId: int)
      requires Valid()
      modifies this, genres, tags
      ensures Valid() && nextMenuId == old(nextMenuId)
      ensures Snapshot() == DeleteMenu(old(Snapshot()), menuId)
    {
      genres.links := WithoutMenu(genres.links, menuId);
      tags.links := WithoutMenu(tags.links, menuId);
      favs := set p | p in favs && p.1 != menuId;
      menus := menus - {menuId};
    }

    /**
     * updateRecipe: a non-positive id is invalid. Otherwise the row (if any)
     * takes the new columns, the image only when one is given, and the
     * genre and tag links follow the submitted names; a failing statement
     * rolls everything back.
     */
    method UpdateRecipe(data: RecipeUpdate, fault: Option<string>) returns (r: Result<int>)
      requires Valid()
      modifies this, genres, tags
      ensures Valid() && nextMenuId == old(nextMenuId)
      ensures data.id <= 0 ==> r == Err("Invalid recipe ID") && Snapshot() == old(Snapshot())
      ensures data.id > 0 && fault.Some? ==> r == Err("Update failed: " + fault.value) && Snapshot() == old(Snapshot())
      ensures data.id > 0 && fault.None? ==> r == Ok(data.id)
      ensures data.id > 0 && fault.None? ==>
        menus == (if data.id in old(menus) then old(menus)[data.id := Updated(old(menus)[data.id], data)] else old(menus))
      ensures data.id > 0 && fault.None? ==>
        LinkedNames(genres.links, genres.names, data.id) ==
          SetOf(data.genres) + (old(LinkedNames(genres.links, genres.names, data.id)) - SetOf(old(InfoGenres(Snapshot(), data.id)))) &&
        LinkedNames(tags.links, tags.names, data.id) ==
          SetOf(data.tags) + (old(LinkedNames(tags.links, tags.names, data.id)) - SetOf(old(InfoTags(Snapshot(), data.id))))
      ensures data.id > 0 && fault.None? ==>
        (forall l: Link :: l.menuId != data.id ==> (l in genres.links <==> l in old(genres.links))) &&
        (forall l: Link :: l.menuId != data.id ==> (l in tags.links <==> l in old(tags.links)))
      ensures NoDup(old(genres.links)) ==> NoDup(genres.links)
      ensures NoDup(old(tags.links)) ==> NoDup(tags.links)
      ensures authors == old(authors) && favs == old(favs) && users == old(users) && userAuthors == old(userAuthors)
      ensures Extends(old(genres.names), genres.names, data.genres) && Extends(old(tags.names), tags.names, data.tags)
    {
      if data.id <= 0 {
        return Err("Invalid recipe ID");
      }
      // fetchInfo's genre and tag columns, split back into names
      var existingGenres := InfoGenres(Snapshot(), data.id);
      var existingTags := InfoTags(Snapshot(), data.id);
      if fault.Some? {
        return Err("Update failed: " + fault.value);
      }
      ApplyUpdate(data, existingGenres, existingTags);
      return Ok(data.id);
    }

    /** The committed statements of updateRecipe: the row, then the genre links, then the tag links. */
    method ApplyUpdate(data: RecipeUpdate, existingGenres: seq<string>, existingTags: seq<string>)
      requires Valid()
      modifies this, genres, tags
      ensures Valid() && nextMenuId == old(nextMenuId)
      ensures menus == (if data.id in old(menus) then old(menus)[data.id := Updated(old(menus)[data.id], data)] else old(menus))
      ensures LinkedNames(genres.links, genres.names, data.id) ==
        SetOf(data.genres) + (old(LinkedNames(genres.links, genres.names, data.id)) - SetOf(existingGenres))
      ensures LinkedNames(tags.links, tags.names, data.id) ==
        SetOf(data.tags) + (old(LinkedNames(tags.links, tags.names, data.id)) - SetOf(existingTags))
      ensures forall l: Link :: l.menuId != data.id ==> (l in genres.links <==> l in old(genres.links))
      ensures forall l: Link :: l.menuId != data.id ==> (l in tags.links <==> l in old(tags.links))
      ensures NoDup(old(genres.links)) ==> NoDup(genres.links)
      ensures NoDup(old(tags.links)) ==> NoDup(tags.links)
      ensures authors == old(authors) && favs == old(favs) && users == old(users) && userAuthors == old(userAuthors)
      ensures Extends(old(genres.names), genres.names, data.genres) && Extends(old(tags.names), tags.names, data.tags)
    {
      if data.id in menus {
        menus := menus[data.id := Updated(menus[data.id], data)];
      }
      genres.Relink(data.id, data.genres, existingGenres);
      tags.Relink(data.id, data.tags, existingTags);
    }

    /**
     * insertMenu: one new row with the next id, then one link row per listed
     * genre id and per listed tag id, in list order; a failure rolls back and
     * is reported as "Failed to insert menu: ...".
     */
    method InsertMenu(data: NewMenu, now: int, fault: Option<string>) returns (r: Result<int>)
      requires Valid()
      modifies this, genres, tags
      ensures Valid()
      ensures fault.Some? ==>
        r == Err("Failed to insert menu: " + fault.value) && Snapshot() == old(Snapshot()) && nextMenuId == old(nextMenuId)
      ensures fault.None? ==> r == Ok(old(nextMenuId)) && old(nextMenuId) !in old(menus) && nextMenuId == old(nextMenuId) + 1
      ensures genres.names == old(genres.names) && tags.names == old(tags.names)
      ensures menus == if fault.None? then old(menus)[old(nextMenuId) := MenuOf(data, now)] else old(menus)
      ensures fault.None? ==>
        Snapshot() == old(Snapshot()).(menus := old(menus)[old(nextMenuId) := MenuOf(data, now)],
                                       genreLinks := old(genres.links) + LinksTo(old(nextMenuId), data.genres),
                                       tagLinks := old(tags.links) + LinksTo(old(nextMenuId), data.tags))
    {
      if fault.Some? {
        return Err("Failed to insert menu: " + fault.value);
      }
      var menuId := nextMenuId;
      menus := menus[menuId := MenuOf(data, now)];
      nextMenuId := nextMenuId + 1;
      if data.genres != [] {
        genres.AppendLinks(menuId, data.genres);
      }
      if data.tags != [] {
        tags.AppendLinks(menuId, data.tags);
      }
      return Ok(menuId);
    }
  }

  /**
   * With the recipe present and its names clean, updateRecipe leaves the
   * recipe linked to exactly the submitted genre names.
   */
  lemma UpdateSetsNames(db: Db, id: int, submitted: seq<string>, after: set<string>)
    requires id in db.menus && CleanNames(db.genreLinks, db.genres, id)
    requires after == SetOf(submitted) + (LinkedNames(db.genreLinks, db.genres, id) - SetOf(InfoGenres(db, id)))
    ensures after == SetOf(submitted)
  {
    InfoGenreNames(db, id);
  }
}
