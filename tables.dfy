// The relational state the recipe store works on (the menu/menu_info,
// author, genre, tag, link, fav and user tables), as in-memory values.
module Tables {
  import opened Wrappers

  /** One recipe row. ctime stands for the creation timestamp, as a number. */
  datatype Menu = Menu(name: string, prepareTime: int, personNum: int, authorId: Option<int>,
                       description: string, preparation: string, ingredients: string,
                       img: Option<string>, ctime: int)

  /** One row of a link table: a recipe id and a genre or tag id. */
  datatype Link = Link(menuId: int, refId: int)

  /**
   * The database: recipes by id, author names by id, genre and tag names by
   * id, the two link tables as rows in insertion order, the favourite pairs
   * (user id, recipe id), the ids of the user table, and the user_author
   * table: the author id (possibly NULL) recorded for a user id.
   */
  datatype Db = Db(menus: map<int, Menu>, authors: map<int, string>,
                   genres: map<int, string>, tags: map<int, string>,
                   genreLinks: seq<Link>, tagLinks: seq<Link>,
                   favs: set<(int, int)>, users: set<int>, userAuthors: map<int, Option<int>>)

  /** The ids a recipe is linked to, in link-table order. */
  function LinkedIds(links: seq<Link>, menuId: int): (ids: seq<int>)
    ensures forall x :: x in ids <==> Link(menuId, x) in links
  {
    if links == [] then []
    else
      var rest := LinkedIds(links[1..], menuId);
      assert forall l :: l in links <==> l == links[0] || l in links[1..];
      if links[0].menuId == menuId then [links[0].refId] + rest else rest
  }

  /** The link rows that do not belong to the recipe, in order. */
  function WithoutMenu(links: seq<Link>, menuId: int): (r: seq<Link>)
    ensures forall l :: l in r <==> l in links && l.menuId != menuId
    ensures |r| <= |links|
  {
    if links == [] then []
    else
      var rest := WithoutMenu(links[1..], menuId);
      assert forall l :: l in links <==> l == links[0] || l in links[1..];
      if links[0].menuId == menuId then rest else [links[0]] + rest
  }
}
