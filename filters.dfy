// The filter toggles of the listing pages: the favourites and "Van mij"
// buttons of src/js/home.js and the favourites button of js/discover.js,
// together with the page the next renderContent call asks for.
module FilterToggles {
  import opened Wrappers

  /** The logged-in user kept in session storage: its user id and author id. */
  datatype UserInfo = UserInfo(id: int, authorId: int)

  /** The two flag-driven entries renderContent puts into selectedFilters. */
  datatype FlagSelection = FlagSelection(fav: Option<int>, author: Option<seq<int>>)

  /**
   * The favourites flag asks for the user's favourites (fav = user id), the
   * "Van mij" flag for the user's own recipes (author = [author id]); without
   * a stored user neither entry is set.
   */
  function SelectFromFlags(favActive: bool, fromMeActive: bool, user: Option<UserInfo>): (sel: FlagSelection)
    ensures sel.fav.Some? <==> favActive && user.Some?
    ensures sel.author.Some? <==> fromMeActive && user.Some?
    ensures sel.fav.Some? ==> sel.fav.value == user.value.id
    ensures sel.author.Some? ==> sel.author.value == [user.value.authorId]
  {
    var fav := if favActive && user.Some? then Some(user.value.id) else None;
    var author := if fromMeActive && user.Some? then Some([user.value.authorId]) else None;
    FlagSelection(fav, author)
  }

  /** The state the home page's handlers share. */
  class HomeFilters {
    var favFilterActive: bool
    var fromMeFilterActive: bool
    var currentPageGlobal: int
    /** The currentPage argument of every renderContent call so far, in order. */
    var requested: seq<int>

    /** At most one of the two flags is on. */
    predicate Valid()
      reads this
    {
      !(favFilterActive && fromMeFilterActive)
    }

    constructor ()
      ensures !favFilterActive && !fromMeFilterActive && currentPageGlobal == 1 && requested == []
      ensures Valid()
    {
      favFilterActive := false;
      fromMeFilterActive := false;
      currentPageGlobal := 1;
      requested := [];
    }

    /**
     * renderContent() with its default argument: the first page is requested,
     * while currentPageGlobal keeps its value.
     */
    method RenderContent(currentPage: int)
      modifies this
      ensures requested == old(requested) + [currentPage]
      ensures favFilterActive == old(favFilterActive) && fromMeFilterActive == old(fromMeFilterActive)
      ensures currentPageGlobal == old(currentPageGlobal)
    {
      requested := requested + [currentPage];
    }

    /** The favourites button: flip the flag; switching it on switches "Van mij" off. */
    method ClickFavorites()
      modifies this
      ensures favFilterActive == !old(favFilterActive)
      ensures fromMeFilterActive == (old(fromMeFilterActive) && !favFilterActive)
      ensures requested == old(requested) + [1]
      ensures currentPageGlobal == old(currentPageGlobal)
      ensures Valid()
    {
      favFilterActive := !favFilterActive;
      if favFilterActive {
        fromMeFilterActive := false;
      }
      RenderContent(1);
    }

    /** The "Van mij" button: flip the flag; switching it on switches favourites off. */
    method ClickFromMe()
      modifies this
      ensures fromMeFilterActive == !old(fromMeFilterActive)
      ensures favFilterActive == (old(favFilterActive) && !fromMeFilterActive)
      ensures requested == old(requested) + [1]
      ensures currentPageGlobal == old(currentPageGlobal)
      ensures Valid()
    {
      fromMeFilterActive := !fromMeFilterActive;
      if fromMeFilterActive {
        favFilterActive := false;
      }
      RenderContent(1);
    }

    /** goToPage: remember the page, then request it. */
    method GoToPage(page: int)
      modifies this
      ensures currentPageGlobal == page
      ensures requested == old(requested) + [page]
      ensures favFilterActive == old(favFilterActive) && fromMeFilterActive == old(fromMeFilterActive)
    {
      currentPageGlobal := page;
      RenderContent(page);
    }
  }

  /** With the flags kept exclusive, a request never asks for favourites and own recipes at once. */
  lemma ExclusiveSelection(favActive: bool, fromMeActive: bool, user: Option<UserInfo>)
    requires !(favActive && fromMeActive)
    ensures !(SelectFromFlags(favActive, fromMeActive, user).fav.Some? &&
              SelectFromFlags(favActive, fromMeActive, user).author.Some?)
  {
  }

  /** The state of the discover page's favourites button. */
  class DiscoverFilters {
    var favFilterActive: bool
    var requested: seq<int>

    constructor ()
      ensures !favFilterActive && requested == []
    {
      favFilterActive := false;
      requested := [];
    }

    /** The favourites button only flips the flag; nothing is requested until the filters are applied. */
    method ClickFavorites()
      modifies this
      ensures favFilterActive == !old(favFilterActive)
      ensures requested == old(requested)
    {
      favFilterActive := !favFilterActive;
    }
  }
}
