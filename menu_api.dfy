// The JSON endpoint for recipes (src/controllers/menu.php): the favourite
// toggles, adding, updating and deleting a recipe, and the POST dispatcher
// with its session gate. Decoded request bodies are maps of JSON values;
// json_decode and the image conversion are not part of this model, their
// results are inputs.
module MenuApi {
  import opened Wrappers
  import Strings
  import Tables
  import CardQuery
  import Store

  /** A decoded JSON value. */
  type Json = CardQuery.FilterValue

  /** A decoded JSON body. */
  type Payload = map<string, Json>

  /** $payload[key], NULL when absent. */
  function Field(p: Payload, key: string): Json
  {
    if key in p then p[key] else CardQuery.Null
  }

  /** The JSON document an endpoint echoes. */
  datatype Reply =
    | Fail(message: string)            // success false, with a message
    | FailError(error: string)         // success false, with an error
    | FavoriteState(isFavorite: bool)  // success true, with isFavorite
    | SavedId(id: int)                 // success true, with the recipe id
    | Done                             // success true

  // ---------------------------------------------------------------------
  // toggle_favorite and check_favorite
  // ---------------------------------------------------------------------

  /** The (int)-cast user and recipe ids of a favourite request. */
  function FavoriteIds(payload: Payload): (int, int)
  {
    (CardQuery.IntCast(Field(payload, "userId")), CardQuery.IntCast(Field(payload, "menuId")))
  }

  predicate ValidIds(ids: (int, int))
  {
    ids.0 > 0 && ids.1 > 0
  }

  /**
   * toggle_favorite: a non-positive id is refused without touching the
   * store; otherwise the pair is toggled and the reply carries the store's
   * answer, which is whether the pair is now a favourite.
   */
  method ToggleFavoriteAction(store: Store.Wejv, payload: Payload) returns (reply: Reply)
    modifies store
    ensures !ValidIds(FavoriteIds(payload)) ==>
      reply == Fail("Invalid user or menu ID") && store.Snapshot() == old(store.Snapshot())
    ensures ValidIds(FavoriteIds(payload)) ==>
      reply == FavoriteState(!old(store.IsFavorite(FavoriteIds(payload).0, FavoriteIds(payload).1))) &&
      store.IsFavorite(FavoriteIds(payload).0, FavoriteIds(payload).1) == reply.isFavorite &&
      store.favs == Store.Toggle(old(store.favs), FavoriteIds(payload))
    ensures store.nextMenuId == old(store.nextMenuId)
  {
    var ids := FavoriteIds(payload);
    if ids.0 <= 0 || ids.1 <= 0 {
      return Fail("Invalid user or menu ID");
    }
    var added := store.ToggleFavorite(ids.0, ids.1);
    return FavoriteState(added);
  }

  /** check_favorite: the same id check, then pair membership. */
  function CheckFavoriteAction(store: Store.Wejv, payload: Payload): (reply: Reply)
    reads store
    ensures !ValidIds(FavoriteIds(payload)) <==> reply == Fail("Invalid user or menu ID")
    ensures ValidIds(FavoriteIds(payload)) ==> reply == FavoriteState(FavoriteIds(payload) in store.favs)
  {
    var ids := FavoriteIds(payload);
    if ids.0 <= 0 || ids.1 <= 0 then Fail("Invalid user or menu ID")
    else FavoriteState(store.IsFavorite(ids.0, ids.1))
  }

  // ---------------------------------------------------------------------
  // Form fields
  // ---------------------------------------------------------------------

  /** A form text field, with its default when absent. */
  function Text(post: map<string, string>, key: string, default: string): string
  {
    if key in post then post[key] else default
  }

  /** `(int)($_POST[key] ?? 0)`. */
  function Number(post: map<string, string>, key: string): int
  {
    if key in post then Strings.Intval(post[key]) else 0
  }

  /**
   * `json_decode(...) ?: []` read as a list of names: a decoded list, and
   * the empty list for anything else (a text that does not decode is NULL).
   */
  function DecodedList(v: Json): (names: seq<string>)
    ensures !CardQuery.Truthy(v) ==> names == []
    ensures v.List? ==> names == v.items
  {
    if v.List? then v.items else []
  }

  /** An uploaded image: whether it arrived without error, its MIME type, and what convertToWebP made of it (None for null). */
  datatype Upload = Upload(ok: bool, mimeType: string, converted: Option<string>)

  /** An upload that arrived but could not be converted: the request ends with "Invalid image format". */
  predicate ConversionFailed(image: Option<Upload>)
  {
    image.Some? && image.value.ok && image.value.converted.None?
  }

  /** The image the record carries: the converted upload, if one arrived. */
  function ImageOf(image: Option<Upload>): Option<string>
  {
    if image.Some? && image.value.ok then image.value.converted else None
  }

  // ---------------------------------------------------------------------
  // update_recipe
  // ---------------------------------------------------------------------

  /**
   * The record update_recipe passes to updateRecipe, before any image: the
   * id cast to int (0 when absent), trimmed texts, prepare_time and
   * person_num renamed and cast, the ingredients text as sent, and the
   * decoded genre and tag lists.
   */
  function RecipeData(post: map<string, string>, genres: Json, tags: Json): (data: Store.RecipeUpdate)
    ensures data.id == (if "id" in post then Strings.Intval(post["id"]) else 0)
    ensures data.name == Strings.PhpTrim(Text(post, "name", ""))
    ensures data.prepareTime == Number(post, "prepare_time") && data.personNum == Number(post, "person_num")
    ensures data.description == Strings.PhpTrim(Text(post, "description", ""))
    ensures data.preparation == Strings.PhpTrim(Text(post, "preparation", ""))
    ensures data.ingredients == Text(post, "ingredients", "")
    ensures data.genres == DecodedList(genres) && data.tags == DecodedList(tags)
    ensures data.img == None
  {
    Store.RecipeUpdate(if "id" in post then Strings.Intval(post["id"]) else 0,
                       Strings.PhpTrim(Text(post, "name", "")),
                       Number(post, "prepare_time"), Number(post, "person_num"),
                       Strings.PhpTrim(Text(post, "description", "")),
                       Strings.PhpTrim(Text(post, "preparation", "")),
                       Text(post, "ingredients", ""),
                       DecodedList(genres), DecodedList(tags), None)
  }

  /**
   * update_recipe: a failed image conversion answers "Invalid image format"
   * and the store is not called; otherwise the record, with the image when
   * one was converted, goes to updateRecipe and its answer is echoed.
   */
  method UpdateRecipeAction(store: Store.Wejv, post: map<string, string>, genres: Json, tags: Json,
                            image: Option<Upload>, fault: Option<string>) returns (reply: Reply)
    requires store.Valid()
    modifies store, store.genres, store.tags
    ensures store.Valid()
    ensures ConversionFailed(image) ==> reply == Fail("Invalid image format") && store.Snapshot() == old(store.Snapshot())
    ensures !ConversionFailed(image) ==>
      var data := RecipeData(post, genres, tags).(img := ImageOf(image));
      (reply.SavedId? <==> data.id > 0 && fault.None?) &&
      (reply.SavedId? ==> reply.id == data.id) &&
      (data.id <= 0 ==> reply == Fail("Invalid recipe ID")) &&
      (data.id > 0 && fault.Some? ==> reply == Fail("Update failed: " + fault.value)) &&
      (reply.SavedId? ==> store.menus == (if data.id in old(store.menus)
                                          then old(store.menus)[data.id := Store.Updated(old(store.menus)[data.id], data)]
                                          else old(store.menus)))
    ensures reply.Fail? ==> store.Snapshot() == old(store.Snapshot())
    ensures reply.SavedId? ==>
      var data := RecipeData(post, genres, tags);
      Store.LinkedNames(store.genres.links, store.genres.names, reply.id) ==
        Store.SetOf(data.genres) +
        (old(Store.LinkedNames(store.genres.links, store.genres.names, reply.id)) - Store.SetOf(old(Store.InfoGenres(store.Snapshot(), reply.id)))) &&
      Store.LinkedNames(store.tags.links, store.tags.names, reply.id) ==
        Store.SetOf(data.tags) +
        (old(Store.LinkedNames(store.tags.links, store.tags.names, reply.id)) - Store.SetOf(old(Store.InfoTags(store.Snapshot(), reply.id))))
    ensures reply.SavedId? ==>
      (forall l: Tables.Link :: l.menuId != reply.id ==> (l in store.genres.links <==> l in old(store.genres.links))) &&
      (forall l: Tables.Link :: l.menuId != reply.id ==> (l in store.tags.links <==> l in old(store.tags.links)))
    ensures Store.NoDup(old(store.genres.links)) ==> Store.NoDup(store.genres.links)
    ensures Store.NoDup(old(store.tags.links)) ==> Store.NoDup(store.tags.links)
    ensures store.authors == old(store.authors) && store.favs == old(store.favs) &&
            store.users == old(store.users) && store.userAuthors == old(store.userAuthors)
    ensures Store.Extends(old(store.genres.names), store.genres.names, RecipeData(post, genres, tags).genres) &&
            Store.Extends(old(store.tags.names), store.tags.names, RecipeData(post, genres, tags).tags)
  {
    var data := RecipeData(post, genres, tags);
    if image.Some? && image.value.ok {
      var img := image.value.converted;
      if img.None? {
        return Fail("Invalid image format");
      }
      data := data.(img := img);
    }
    var r := store.UpdateRecipe(data, fault);
    match r
    case Ok(id) => reply := SavedId(id);
    case Err(msg) => reply := Fail(msg);
  }

  /**
   * Form fields sent as their canonical text come through unchanged: an id
   * and counts written in decimal read back as the numbers, and texts
   * without blank ends are kept as they are.
   */
  lemma RecipeDataOfCleanForm(post: map<string, string>, id: nat, prepareTime: nat, personNum: nat,
                              genres: seq<string>, tags: seq<string>)
    requires id <= Strings.PhpIntMax && prepareTime <= Strings.PhpIntMax && personNum <= Strings.PhpIntMax
    requires "id" in post && post["id"] == Strings.Decimal(id)
    requires "prepare_time" in post && post["prepare_time"] == Strings.Decimal(prepareTime)
    requires "person_num" in post && post["person_num"] == Strings.Decimal(personNum)
    requires "name" in post && Strings.EdgesOutside(post["name"], Strings.PhpTrimChars)
    requires "description" in post && Strings.EdgesOutside(post["description"], Strings.PhpTrimChars)
    requires "preparation" in post && Strings.EdgesOutside(post["preparation"], Strings.PhpTrimChars)
    requires "ingredients" in post
    ensures RecipeData(post, CardQuery.List(genres), CardQuery.List(tags))
            == Store.RecipeUpdate(id, post["name"], prepareTime, personNum, post["description"],
                                  post["preparation"], post["ingredients"], genres, tags, None)
  {
    Strings.IntvalDecimal(id);
    Strings.IntvalDecimal(prepareTime);
    Strings.IntvalDecimal(personNum);
    CleanTrim(post["name"]);
    CleanTrim(post["description"]);
    CleanTrim(post["preparation"]);
  }

  /** A text without blank ends is its own trim. */
  lemma CleanTrim(s: string)
    requires Strings.EdgesOutside(s, Strings.PhpTrimChars)
    ensures Strings.PhpTrim(s) == s
  {
    Strings.TrimUnique([], s, [], Strings.PhpTrimChars);
    assert [] + s + [] == s;
  }

  // ---------------------------------------------------------------------
  // add_recipe
  // ---------------------------------------------------------------------

  /** The two foreach loops of add_recipe: one getOrCreateId per name, ids in name order. */
  method GetOrCreateIds(table: Store.NameTable, names: seq<string>) returns (ids: seq<int>)
    requires table.Valid()
    modifies table
    ensures table.Valid()
    ensures |ids| == |names|
    ensures forall k :: 0 <= k < |names| ==> ids[k] in table.names && table.names[ids[k]] == names[k]
    ensures Store.Extends(old(table.names), table.names, names)
    ensures table.links == old(table.links)
  {
    ids := [];
    var i := 0;
    while i < |names|
      invariant 0 <= i <= |names| && |ids| == i
      invariant table.Valid()
      invariant forall k :: 0 <= k < i ==> ids[k] in table.names && table.names[ids[k]] == names[k]
      invariant forall k :: k in old(table.names) ==> k in table.names && table.names[k] == old(table.names)[k]
      invariant forall k :: k in table.names && k !in old(table.names) ==> table.names[k] in names[..i]
      invariant table.links == old(table.links)
    {
      var id := table.GetOrCreateId(names[i]);
      ids := ids + [id];
      i := i + 1;
    }
  }

  /** The record add_recipe passes to insertMenu, once the ids are known. */
  function NewRecipe(post: map<string, string>, authorId: Option<int>, img: Option<string>,
                     genreIds: seq<int>, tagIds: seq<int>): Store.NewMenu
  {
    Store.NewMenu(Strings.PhpTrim(Text(post, "name", "")), Number(post, "prepare_time"), Number(post, "person_num"),
                  authorId, Strings.PhpTrim(Text(post, "description", "")),
                  Strings.PhpTrim(Text(post, "preparation", "")), Text(post, "ingredients", "[]"),
                  img, genreIds, tagIds)
  }

  /**
   * The menu a saved recipe's links name, in submitted order: each linked id
   * is the id of the submitted name at the same position.
   */
  ghost predicate LinksNames(table: Store.NameTable, menuId: int, names: seq<string>)
    reads table
  {
    var ids := Tables.LinkedIds(table.links, menuId);
    |ids| == |names| &&
    forall k :: 0 <= k < |ids| ==> ids[k] in table.names && table.names[ids[k]] == names[k]
  }

  /**
   * The link rows a save adds: the old rows stay first, followed by one row
   * per submitted name for the new menu, in submitted order, each naming
   * the id of that name.
   */
  ghost predicate LinkedInOrder(before: seq<Tables.Link>, after: seq<Tables.Link>, menuId: int,
                                names: map<int, string>, submitted: seq<string>)
  {
    |after| == |before| + |submitted| && after[..|before|] == before &&
    forall k :: 0 <= k < |submitted| ==>
      after[|before| + k].menuId == menuId && after[|before| + k].refId in names &&
      names[after[|before| + k].refId] == submitted[k]
  }

  /** The tables adding a recipe leaves alone. */
  ghost predicate OthersKept(db: Tables.Db, db': Tables.Db)
  {
    db'.authors == db.authors && db'.favs == db.favs && db'.users == db.users && db'.userAuthors == db.userAuthors
  }

  /** Appending the rows for the looked-up ids keeps the submitted order. */
  lemma AppendedInOrder(before: seq<Tables.Link>, menuId: int, ids: seq<int>, names: map<int, string>, submitted: seq<string>)
    requires |ids| == |submitted|
    requires forall k :: 0 <= k < |submitted| ==> ids[k] in names && names[ids[k]] == submitted[k]
    ensures LinkedInOrder(before, before + Store.LinksTo(menuId, ids), menuId, names, submitted)
  {
    var after := before + Store.LinksTo(menuId, ids);
    assert after[..|before|] == before;
    forall k | 0 <= k < |submitted|
      ensures after[|before| + k] == Tables.Link(menuId, ids[k])
    {
      assert after[|before| + k] == Store.LinksTo(menuId, ids)[k];
    }
  }

  /**
   * The part of add_recipe after the checks: an id for every genre and tag
   * name (created when new, outside the insert's transaction), then
   * insertMenu with those ids.
   */
  method SaveRecipe(store: Store.Wejv, data: Store.NewMenu, genres: seq<string>, tags: seq<string>,
                    now: int, fault: Option<string>) returns (reply: Reply)
    requires store.Valid()
    modifies store, store.genres, store.tags
    ensures store.Valid()
    ensures fault.Some? ==>
      reply == FailError("Failed to insert menu: " + fault.value) && store.menus == old(store.menus) &&
      store.genres.links == old(store.genres.links) && store.tags.links == old(store.tags.links)
    ensures fault.None? ==>
      reply == SavedId(old(store.nextMenuId)) && old(store.nextMenuId) !in old(store.menus) &&
      store.menus == old(store.menus)[old(store.nextMenuId) := Store.MenuOf(data, now)]
    ensures fault.None? ==>
      LinkedInOrder(old(store.genres.links), store.genres.links, old(store.nextMenuId), store.genres.names, genres) &&
      LinkedInOrder(old(store.tags.links), store.tags.links, old(store.nextMenuId), store.tags.names, tags)
    ensures Store.Extends(old(store.genres.names), store.genres.names, genres)
    ensures Store.Extends(old(store.tags.names), store.tags.names, tags)
    ensures OthersKept(old(store.Snapshot()), store.Snapshot())
    ensures fault.None? && Tables.LinkedIds(old(store.genres.links), old(store.nextMenuId)) == [] ==>
      LinksNames(store.genres, old(store.nextMenuId), genres)
    ensures fault.None? && Tables.LinkedIds(old(store.tags.links), old(store.nextMenuId)) == [] ==>
      LinksNames(store.tags, old(store.nextMenuId), tags)
  {
    var genreIds := GetOrCreateIds(store.genres, genres);
    var tagIds := GetOrCreateIds(store.tags, tags);
    ghost var genreLinks := store.genres.links;
    ghost var tagLinks := store.tags.links;
    var r := store.InsertMenu(data.(genres := genreIds, tags := tagIds), now, fault);
    match r
    case Ok(id) =>
      AppendedInOrder(genreLinks, id, genreIds, store.genres.names, genres);
      AppendedInOrder(tagLinks, id, tagIds, store.tags.names, tags);
      if Tables.LinkedIds(genreLinks, id) == [] {
        Store.AppendedLinks(genreLinks, id, genreIds);
      }
      if Tables.LinkedIds(tagLinks, id) == [] {
        Store.AppendedLinks(tagLinks, id, tagIds);
      }
      reply := SavedId(id);
    case Err(msg) =>
      reply := FailError(msg);
  }

  /**
   * The checks add_recipe makes before saving: a negative author id, then an
   * upload that could not be converted.
   */
  function AddRefusal(authorId: Option<int>, image: Option<Upload>): (r: Option<Reply>)
    ensures authorId.Some? && authorId.value < 0 <==> r == Some(FailError("Invalid author"))
    ensures r == Some(Fail("Invalid image format")) <==> !(authorId.Some? && authorId.value < 0) && ConversionFailed(image)
  {
    if authorId.Some? && authorId.value < 0 then Some(FailError("Invalid author"))
    else if ConversionFailed(image) then Some(Fail("Invalid image format"))
    else None
  }

  /**
   * add_recipe: a negative author id is refused, then a failed image
   * conversion; both leave the store as it was. Otherwise the recipe is
   * saved, and (when no stale link rows name its new id) it is linked to
   * the ids of the submitted names, in the submitted order.
   */
  method AddRecipeAction(store: Store.Wejv, post: map<string, string>, genres: Json, tags: Json,
                         authorId: Option<int>, image: Option<Upload>, now: int, fault: Option<string>)
    returns (reply: Reply)
    requires store.Valid()
    modifies store, store.genres, store.tags
    ensures store.Valid()
    ensures AddRefusal(authorId, image).Some? ==>
      reply == AddRefusal(authorId, image).value && store.Snapshot() == old(store.Snapshot())
    ensures AddRefusal(authorId, image).None? && fault.Some? ==>
      reply == FailError("Failed to insert menu: " + fault.value) && store.menus == old(store.menus) &&
      store.genres.links == old(store.genres.links) && store.tags.links == old(store.tags.links)
    ensures AddRefusal(authorId, image).None? && fault.None? ==>
      reply == SavedId(old(store.nextMenuId)) &&
      store.menus == old(store.menus)[old(store.nextMenuId) := Store.MenuOf(NewRecipe(post, authorId, ImageOf(image), [], []), now)]
    ensures AddRefusal(authorId, image).None? && fault.None? &&
            Tables.LinkedIds(old(store.genres.links), old(store.nextMenuId)) == [] ==>
      LinksNames(store.genres, old(store.nextMenuId), DecodedList(genres))
    ensures AddRefusal(authorId, image).None? && fault.None? &&
            Tables.LinkedIds(old(store.tags.links), old(store.nextMenuId)) == [] ==>
      LinksNames(store.tags, old(store.nextMenuId), DecodedList(tags))
    ensures AddRefusal(authorId, image).None? && fault.None? ==>
      LinkedInOrder(old(store.genres.links), store.genres.links, old(store.nextMenuId), store.genres.names, DecodedList(genres)) &&
      LinkedInOrder(old(store.tags.links), store.tags.links, old(store.nextMenuId), store.tags.names, DecodedList(tags))
    ensures Store.Extends(old(store.genres.names), store.genres.names, DecodedList(genres))
    ensures Store.Extends(old(store.tags.names), store.tags.names, DecodedList(tags))
    ensures OthersKept(old(store.Snapshot()), store.Snapshot())
  {
    if authorId.Some? && authorId.value < 0 {
      return FailError("Invalid author");
    }
    if image.Some? && image.value.ok && image.value.converted.None? {
      return Fail("Invalid image format");
    }
    reply := SaveRecipe(store, NewRecipe(post, authorId, ImageOf(image), [], []),
                        DecodedList(genres), DecodedList(tags), now, fault);
  }

  // ---------------------------------------------------------------------
  // delete_recipe
  // ---------------------------------------------------------------------

  /** An int field that isset: present and not NULL, cast to int; 0 otherwise. */
  function IssetInt(payload: Payload, key: string): int
  {
    if key in payload && payload[key] != CardQuery.Null then CardQuery.IntCast(payload[key]) else 0
  }

  /**
   * `$payload['role'] ?? ''` as the string deleteRecipe receives. A number
   * or boolean never coerces to "admin", so any value that is not a string
   * is read as the empty role (an array, which PHP refuses with a
   * TypeError, included).
   */
  function RoleOf(payload: Payload): string
  {
    match Field(payload, "role")
    case Str(s) => s
    case _ => ""
  }

  /** The arguments delete_recipe passes on: missing ids default to 0, a missing role to ''. */
  function DeleteArgs(payload: Payload): (args: (int, int, string))
    ensures "id" !in payload ==> args.0 == 0
    ensures "user_id" !in payload ==> args.1 == 0
    ensures "role" !in payload ==> args.2 == ""
  {
    (IssetInt(payload, "id"), IssetInt(payload, "user_id"), RoleOf(payload))
  }

  /** delete_recipe: deleteRecipe on the defaulted arguments, its answer echoed. */
  method DeleteRecipeAction(store: Store.Wejv, payload: Payload, fault: Option<string>) returns (reply: Reply)
    requires store.Valid()
    modifies store, store.genres, store.tags
    ensures store.Valid()
    ensures var (menuId, userId, role) := DeleteArgs(payload);
      (reply == Done <==> menuId > 0 && Store.Authorized(old(store.Snapshot()), menuId, userId, role) && fault.None?) &&
      (reply == Done ==> store.Snapshot() == Store.DeleteMenu(old(store.Snapshot()), menuId)) &&
      (reply != Done ==> store.Snapshot() == old(store.Snapshot()))
  {
    var (menuId, userId, role) := DeleteArgs(payload);
    var r := store.DeleteRecipe(menuId, userId, role, fault);
    reply := if r.Success? then Done else Fail(r.message);
  }

  /** An empty body asks to delete recipe 0 for user 0 with no role, which deleteRecipe refuses as an invalid id. */
  lemma DeleteEmptyBody()
    ensures DeleteArgs(map[]) == (0, 0, "")
  {
  }

  /**
   * The role comes from the request body: any request naming the role
   * "admin" and a positive id is authorised, whoever sends it.
   */
  lemma ClaimedAdmin(db: Tables.Db, payload: Payload)
    requires Field(payload, "role") == CardQuery.Str("admin") && DeleteArgs(payload).0 > 0
    ensures Store.Authorized(db, DeleteArgs(payload).0, DeleteArgs(payload).1, DeleteArgs(payload).2)
  {
  }

  // ---------------------------------------------------------------------
  // The POST dispatcher and its session gate
  // ---------------------------------------------------------------------

  /** The handler a POST request reaches. */
  datatype Handler = GetContent | ToggleFavorite | CheckFavorite | AddRecipe | UpdateRecipe | DeleteRecipe | NoHandler

  /** What the endpoint does with a POST request: refuse it as unauthorised, or run a handler. */
  datatype Dispatch = Unauthorized | Run(handler: Handler)

  /** The handlers that change recipes. */
  predicate Protected(h: Handler)
  {
    h == AddRecipe || h == UpdateRecipe || h == DeleteRecipe
  }

  /** `$_GET['action'] ?? ($data['action'] ?? '')`: the action the gate looks at. */
  function GateAction(getAction: Option<string>, bodyAction: Option<string>): string
  {
    if getAction.Some? then getAction.value else if bodyAction.Some? then bodyAction.value else ""
  }

  predicate GatedName(a: string)
  {
    a == "addRecipe" || a == "updateRecipe" || a == "deleteRecipe"
  }

  /** The if/elseif chain: body actions first, then query-string actions, deleteRecipe from either. */
  function Handle(getAction: Option<string>, bodyAction: Option<string>): (h: Handler)
    ensures h == AddRecipe ==> getAction == Some("addRecipe")
    ensures h == UpdateRecipe ==> getAction == Some("updateRecipe")
    ensures h == DeleteRecipe ==> getAction == Some("deleteRecipe") || bodyAction == Some("deleteRecipe")
  {
    if bodyAction == Some("getContent") then GetContent
    else if bodyAction == Some("toggleFavorite") then ToggleFavorite
    else if bodyAction == Some("checkFavorite") then CheckFavorite
    else if getAction == Some("addRecipe") then AddRecipe
    else if getAction == Some("updateRecipe") then UpdateRecipe
    else if bodyAction == Some("deleteRecipe") || getAction == Some("deleteRecipe") then DeleteRecipe
    else NoHandler
  }

  /** The endpoint as written: the gate tests the query-string action when there is one. */
  function Route(getAction: Option<string>, bodyAction: Option<string>, loggedIn: bool): Dispatch
  {
    if GatedName(GateAction(getAction, bodyAction)) && !loggedIn then Unauthorized
    else Run(Handle(getAction, bodyAction))
  }

  /** The endpoint gating the handler it is about to run. */
  function RouteGated(getAction: Option<string>, bodyAction: Option<string>, loggedIn: bool): (d: Dispatch)
    ensures !loggedIn ==> !(d.Run? && Protected(d.handler))
    ensures loggedIn ==> d == Run(Handle(getAction, bodyAction))
    ensures !Protected(Handle(getAction, bodyAction)) ==> d == Run(Handle(getAction, bodyAction))
  {
    var h := Handle(getAction, bodyAction);
    if Protected(h) && !loggedIn then Unauthorized else Run(h)
  }

  /** As written, adding and updating are always gated: both are dispatched from the query-string action alone. */
  lemma AddUpdateGated(getAction: Option<string>, bodyAction: Option<string>)
    ensures Route(getAction, bodyAction, false) != Run(AddRecipe)
    ensures Route(getAction, bodyAction, false) != Run(UpdateRecipe)
  {
  }

  /**
   * As written, deleteRecipe in the body with any other query-string action
   * runs the delete handler without a session.
   */
  lemma GateBypass()
    ensures Route(Some("getFilter"), Some("deleteRecipe"), false) == Run(DeleteRecipe)
    ensures RouteGated(Some("getFilter"), Some("deleteRecipe"), false) == Unauthorized
  {
    assert !GatedName("getFilter");
  }

  /** The corrected gate refuses exactly the protected handlers without a session, and agrees with the original when logged in. */
  lemma RouteGatedAgrees(getAction: Option<string>, bodyAction: Option<string>)
    ensures Route(getAction, bodyAction, true) == RouteGated(getAction, bodyAction, true)
    ensures Route(getAction, bodyAction, false) == Unauthorized && Protected(Handle(getAction, bodyAction)) ==>
      RouteGated(getAction, bodyAction, false) == Unauthorized
  {
  }
}
