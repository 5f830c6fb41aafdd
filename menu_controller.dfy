// The form endpoint that adds a recipe (controllers/menu_controller.php):
// the user and author checks, the required-field check, the processing of
// submitted genre and tag ids with their "custom" entries, the image-type
// whitelist, and the final insertMenu. addGenre and addTag behave as
// getOrCreateId, so both are NameTable.GetOrCreateId here.
module MenuController {
  import opened Wrappers
  import Strings
  import Tables
  import Store
  import MenuApi

  /** What the endpoint echoes: a refusal with its message, or the new recipe's id. */
  datatype Answer = Refused(message: string) | Added(menuId: int)

  // ---------------------------------------------------------------------
  // User, author and required fields
  // ---------------------------------------------------------------------

  /** `isset($_POST['user_id']) ? (int)$_POST['user_id'] : 0`. */
  function UserIdOf(post: map<string, string>): int
  {
    if "user_id" in post then Strings.Intval(post["user_id"]) else 0
  }

  /** The author id getAuthorIdForUser finds for a user, when it is truthy. */
  function AuthorOf(userAuthors: map<int, Option<int>>, userId: int): (a: Option<int>)
    ensures a.Some? ==> a.value != 0 && userId in userAuthors && userAuthors[userId] == Some(a.value)
    ensures a.None? <==> userId !in userAuthors || userAuthors[userId] == None || userAuthors[userId] == Some(0)
  {
    var found := Store.AuthorIdOf(userAuthors, userId);
    if found.Some? && found.value != 0 then found else None
  }

  /** The fields the form must carry, in the order they are checked. */
  const RequiredFields: seq<string> := ["name", "prepare_time", "person_num", "description", "preparation", "ingredients"]

  /** A field that is set and not PHP-empty. */
  predicate Supplied(post: map<string, string>, field: string)
  {
    field in post && !Strings.PhpEmpty(post[field])
  }

  /** The position of the first field that is not supplied; |fields| when all are. */
  function FirstUnsupplied(post: map<string, string>, fields: seq<string>): (i: nat)
    ensures i <= |fields|
    ensures forall j :: 0 <= j < i ==> Supplied(post, fields[j])
    ensures i < |fields| ==> !Supplied(post, fields[i])
  {
    if fields == [] then 0
    else if !Supplied(post, fields[0]) then 0
    else 1 + FirstUnsupplied(post, fields[1..])
  }

  /** The early-exit loop over the required fields: the first one missing, if any. */
  method MissingField(post: map<string, string>) returns (missing: Option<string>)
    ensures missing.None? <==> FirstUnsupplied(post, RequiredFields) == |RequiredFields|
    ensures missing.Some? ==> missing.value == RequiredFields[FirstUnsupplied(post, RequiredFields)]
  {
    var i := 0;
    while i < |RequiredFields|
      invariant 0 <= i <= |RequiredFields|
      invariant forall j :: 0 <= j < i ==> Supplied(post, RequiredFields[j])
    {
      var field := RequiredFields[i];
      if !(field in post) || Strings.PhpEmpty(post[field]) {
        return Some(field);
      }
      i := i + 1;
    }
    return None;
  }

  /**
   * The checks made before any table is touched, in order: a positive user
   * id, a user row, a truthy author id for the user, and every required
   * field. None when all pass.
   */
  function Precheck(users: set<int>, userAuthors: map<int, Option<int>>, post: map<string, string>): (refusal: Option<string>)
    ensures UserIdOf(post) <= 0 ==> refusal == Some("User not authenticated")
    ensures refusal.None? <==>
      UserIdOf(post) > 0 && UserIdOf(post) in users && AuthorOf(userAuthors, UserIdOf(post)).Some? &&
      forall k :: 0 <= k < |RequiredFields| ==> Supplied(post, RequiredFields[k])
  {
    var userId := UserIdOf(post);
    if userId <= 0 then Some("User not authenticated")
    else if userId !in users then Some("User not found")
    else if AuthorOf(userAuthors, userId).None? then Some("Author not found for user")
    else
      var i := FirstUnsupplied(post, RequiredFields);
      if i < |RequiredFields| then Some("Missing required field: " + RequiredFields[i]) else None
  }

  // ---------------------------------------------------------------------
  // Genre and tag ids with "custom" entries
  // ---------------------------------------------------------------------

  /** What one submitted entry contributes: itself, or the id of a custom name. */
  datatype Step = Keep(ref: string) | Create(name: string)

  function CustomCount(refs: seq<string>): nat
  {
    if refs == [] then 0 else (if refs[0] == "custom" then 1 else 0) + CustomCount(refs[1..])
  }

  /** The submitted entries other than "custom", in order. */
  function NonCustom(refs: seq<string>): seq<string>
  {
    if refs == [] then [] else (if refs[0] == "custom" then [] else [refs[0]]) + NonCustom(refs[1..])
  }

  /** The names that are not PHP-empty, in order. */
  function Truthy(names: seq<string>): seq<string>
  {
    if names == [] then [] else (if Strings.PhpEmpty(names[0]) then [] else [names[0]]) + Truthy(names[1..])
  }

  function Kept(steps: seq<Step>): seq<string>
  {
    if steps == [] then [] else (if steps[0].Keep? then [steps[0].ref] else []) + Kept(steps[1..])
  }

  function Created(steps: seq<Step>): seq<string>
  {
    if steps == [] then [] else (if steps[0].Create? then [steps[0].name] else []) + Created(steps[1..])
  }

  function Min(a: int, b: int): int
  {
    if a <= b then a else b
  }

  /**
   * The foreach over the submitted entries: each entry other than "custom"
   * is kept; each "custom" takes the next custom name, if one is left, and
   * contributes it when it is not PHP-empty. Returns the contributions and
   * the custom names left over, which are a suffix of the names given.
   */
  function Plan(refs: seq<string>, names: seq<string>): (p: (seq<Step>, seq<string>))
    ensures |p.0| <= |refs|
    ensures |p.1| <= |names| && p.1 == names[|names| - |p.1|..]
  {
    if refs == [] then ([], names)
    else if refs[0] == "custom" then
      if names == [] then Plan(refs[1..], names)
      else
        var (steps, rest) := Plan(refs[1..], names[1..]);
        if Strings.PhpEmpty(names[0]) then (steps, rest) else ([Create(names[0])] + steps, rest)
    else
      var (steps, rest) := Plan(refs[1..], names);
      ([Keep(refs[0])] + steps, rest)
  }

  /** The number of custom names consumed is the number of "custom" entries, as far as the names go. */
  lemma {:induction false} PlanConsumes(refs: seq<string>, names: seq<string>)
    ensures |names| - |Plan(refs, names).1| == Min(CustomCount(refs), |names|)
  {
    if refs != [] {
      if refs[0] == "custom" && names != [] {
        PlanConsumes(refs[1..], names[1..]);
      } else {
        PlanConsumes(refs[1..], names);
      }
    }
  }

  /** The kept entries are exactly the entries other than "custom", in order. */
  lemma {:induction false} PlanKeeps(refs: seq<string>, names: seq<string>)
    ensures Kept(Plan(refs, names).0) == NonCustom(refs)
  {
    if refs != [] {
      if refs[0] == "custom" && names != [] {
        PlanKeeps(refs[1..], names[1..]);
      } else {
        PlanKeeps(refs[1..], names);
      }
    }
  }

  /** The created names are the consumed names that are not PHP-empty, in order. */
  lemma {:induction false} PlanCreates(refs: seq<string>, names: seq<string>)
    ensures Created(Plan(refs, names).0) == Truthy(names[..|names| - |Plan(refs, names).1|])
  {
    if refs == [] {
      assert names[..0] == [];
    } else if refs[0] == "custom" && names != [] {
      PlanCreates(refs[1..], names[1..]);
      var rest := Plan(refs[1..], names[1..]).1;
      var used := names[..|names| - |rest|];
      assert used[1..] == names[1..][..|names[1..]| - |rest|];
    } else {
      PlanCreates(refs[1..], names);
    }
  }

  /**
   * One entry of the foreach: what it contributes and the custom names left
   * after it. Only a "custom" entry consumes a name, and only the first.
   */
  function Advance(ref: string, names: seq<string>): (r: (seq<Step>, seq<string>))
    ensures r.1 == names || (names != [] && r.1 == names[1..])
    ensures ref != "custom" ==> r == ([Keep(ref)], names)
  {
    if ref != "custom" then ([Keep(ref)], names)
    else if names == [] then ([], names)
    else if Strings.PhpEmpty(names[0]) then ([], names[1..])
    else ([Create(names[0])], names[1..])
  }

  /** The plan is the first entry's contribution followed by the plan of the rest. */
  lemma PlanUnfold(refs: seq<string>, names: seq<string>)
    requires refs != []
    ensures var (steps, rest) := Advance(refs[0], names);
      Plan(refs, names) == (steps + Plan(refs[1..], rest).0, Plan(refs[1..], rest).1)
  {
    if refs[0] == "custom" && (names == [] || Strings.PhpEmpty(names[0])) {
      var rest := Advance(refs[0], names).1;
      assert [] + Plan(refs[1..], rest).0 == Plan(refs[1..], rest).0;
    }
  }

  /** The value a step put in the processed list: the entry itself, or a custom name's id as a string. */
  ghost predicate Realized(names: map<int, string>, step: Step, value: string)
  {
    match step
    case Keep(r) => value == r
    case Create(n) => exists id: nat :: id in names && names[id] == n && value == Strings.Decimal(id)
  }

  ghost predicate Realizes(names: map<int, string>, steps: seq<Step>, processed: seq<string>)
  {
    |steps| == |processed| && forall k :: 0 <= k < |steps| ==> Realized(names, steps[k], processed[k])
  }

  /** Ids once given keep their names, so what was realized stays realized. */
  lemma RealizesGrow(names: map<int, string>, names': map<int, string>, steps: seq<Step>, processed: seq<string>)
    requires Realizes(names, steps, processed)
    requires forall k :: k in names ==> k in names' && names'[k] == names[k]
    ensures Realizes(names', steps, processed)
  {
    forall k | 0 <= k < |steps|
      ensures Realized(names', steps[k], processed[k])
    {
      if steps[k].Create? {
        var id: nat :| id in names && names[id] == steps[k].name && processed[k] == Strings.Decimal(id);
        assert id in names' && names'[id] == steps[k].name;
      }
    }
  }

  /**
   * The processing loop: entries are visited in order; a "custom" entry
   * shifts the next custom name off its list and, when the name is truthy,
   * appends the name's get-or-create id (as a string); any other entry is
   * appended as it is. The result realizes the plan.
   */
  method ProcessRefs(table: Store.NameTable, refs: seq<string>, customNames: seq<string>) returns (processed: seq<string>)
    requires table.Valid()
    modifies table
    ensures table.Valid()
    ensures Realizes(table.names, Plan(refs, customNames).0, processed)
    ensures Store.Extends(old(table.names), table.names, customNames)
    ensures table.links == old(table.links)
  {
    processed := [];
    var remaining := customNames;
    ghost var done: seq<Step> := [];
    var i := 0;
    assert refs[i..] == refs;
    assert done + Plan(refs, customNames).0 == Plan(refs, customNames).0;
    while i < |refs|
      invariant 0 <= i <= |refs|
      invariant Plan(refs, customNames) == (done + Plan(refs[i..], remaining).0, Plan(refs[i..], remaining).1)
      invariant Realizes(table.names, done, processed)
      invariant table.Valid()
      invariant Store.Extends(old(table.names), table.names, customNames)
      invariant forall n :: n in remaining ==> n in customNames
      invariant table.links == old(table.links)
    {
      ghost var (steps, rest) := Advance(refs[i], remaining);
      assert refs[i..][0] == refs[i] && refs[i..][1..] == refs[i + 1..];
      PlanUnfold(refs[i..], remaining);
      ghost var before, names := table.names, remaining;
      processed, remaining := ProcessEntry(table, refs[i], remaining, done, processed);
      ExtendsTrans(old(table.names), before, table.names, customNames, names);
      assert done + (steps + Plan(refs[i + 1..], rest).0) == (done + steps) + Plan(refs[i + 1..], rest).0;
      done := done + steps;
      i := i + 1;
    }
    assert refs[i..] == [];
    assert done + [] == done;
  }

  /** Two runs of lookups, the second with names from the allowed list, are one run. */
  lemma ExtendsTrans(a: map<int, string>, b: map<int, string>, c: map<int, string>, allowed: seq<string>, step: seq<string>)
    requires Store.Extends(a, b, allowed) && Store.Extends(b, c, step) && forall n :: n in step ==> n in allowed
    ensures Store.Extends(a, c, allowed)
  {
  }

  /**
   * The body of the foreach for one entry: a "custom" entry shifts the next
   * custom name off the list and, when it is truthy, appends its
   * get-or-create id as a string; any other entry is appended as it is.
   */
  method ProcessEntry(table: Store.NameTable, ref: string, remaining: seq<string>, ghost done: seq<Step>, processed: seq<string>)
    returns (processed': seq<string>, remaining': seq<string>)
    requires table.Valid() && Realizes(table.names, done, processed)
    modifies table
    ensures table.Valid()
    ensures remaining' == Advance(ref, remaining).1
    ensures Realizes(table.names, done + Advance(ref, remaining).0, processed')
    ensures Store.Extends(old(table.names), table.names, remaining)
    ensures table.links == old(table.links)
  {
    processed', remaining' := processed, remaining;
    if ref == "custom" {
      if remaining != [] {
        var name := remaining[0];
        remaining' := remaining[1..];
        if !Strings.PhpEmpty(name) {
          processed' := AppendCreated(table, done, processed, name);
        } else {
          assert done + [] == done;
        }
      } else {
        assert done + [] == done;
      }
    } else {
      processed' := processed + [ref];
      forall k | 0 <= k < |done| + 1
        ensures Realized(table.names, (done + [Keep(ref)])[k], processed'[k])
      {
        if k < |done| {
          assert (done + [Keep(ref)])[k] == done[k] && processed'[k] == processed[k];
        }
      }
    }
  }

  /** A truthy custom name: its get-or-create id, as a string, is appended. */
  method AppendCreated(table: Store.NameTable, ghost done: seq<Step>, processed: seq<string>, name: string)
    returns (processed': seq<string>)
    requires table.Valid() && Realizes(table.names, done, processed)
    modifies table
    ensures table.Valid()
    ensures Realizes(table.names, done + [Create(name)], processed')
    ensures Store.Extends(old(table.names), table.names, [name])
    ensures table.links == old(table.links)
  {
    ghost var before := table.names;
    var id := table.GetOrCreateId(name);
    RealizesGrow(before, table.names, done, processed);
    assert Realized(table.names, Create(name), Strings.Decimal(id));
    processed' := processed + [Strings.Decimal(id)];
  }

  /**
   * What insertMenu receives for a processed entry: a kept entry is cast to
   * an int, and a created entry reads back as the id whose name it was made for.
   */
  lemma RealizedIds(names: map<int, string>, steps: seq<Step>, processed: seq<string>)
    requires Realizes(names, steps, processed)
    requires forall id :: id in names ==> id <= Strings.PhpIntMax
    ensures forall k :: 0 <= k < |steps| && steps[k].Create? ==>
      Strings.Intval(processed[k]) in names && names[Strings.Intval(processed[k])] == steps[k].name
  {
    forall k | 0 <= k < |steps| && steps[k].Create?
      ensures Strings.Intval(processed[k]) in names && names[Strings.Intval(processed[k])] == steps[k].name
    {
      var id: nat :| id in names && names[id] == steps[k].name && processed[k] == Strings.Decimal(id);
      Strings.IntvalDecimal(id);
    }
  }

  // ---------------------------------------------------------------------
  // Image
  // ---------------------------------------------------------------------

  /** The MIME types an upload may have. */
  predicate AllowedType(t: string)
  {
    t == "image/jpeg" || t == "image/jpg" || t == "image/png" || t == "image/webp"
  }

  /**
   * The image block: no upload, or a failed one, gives no image; an upload
   * of another type is refused before conversion; a falsy conversion is
   * refused; otherwise the converted data is the image.
   */
  function ImageStep(image: Option<MenuApi.Upload>): (r: Result<Option<string>>)
    ensures r == Err("Invalid image format. Only JPG, PNG, and WebP are allowed.") <==>
      image.Some? && image.value.ok && !AllowedType(image.value.mimeType)
    ensures r.Ok? && r.value.Some? ==>
      image.Some? && image.value.ok && AllowedType(image.value.mimeType) && image.value.converted == r.value &&
      !Strings.PhpEmpty(r.value.value)
    ensures (image.None? || !image.value.ok) ==> r == Ok(None)
  {
    if image.None? || !image.value.ok then Ok(None)
    else if !AllowedType(image.value.mimeType) then Err("Invalid image format. Only JPG, PNG, and WebP are allowed.")
    else if image.value.converted.None? || Strings.PhpEmpty(image.value.converted.value) then Err("Failed to process image")
    else Ok(image.value.converted)
  }

  // ---------------------------------------------------------------------
  // The whole request
  // ---------------------------------------------------------------------

  /** Casts the processed entries to the ints bound as link ids. */
  function Ids(processed: seq<string>): (ids: seq<int>)
    ensures |ids| == |processed|
    ensures forall k :: 0 <= k < |ids| ==> ids[k] == Strings.Intval(processed[k])
  {
    if processed == [] then [] else [Strings.Intval(processed[0])] + Ids(processed[1..])
  }

  /** The link id a processed entry becomes: a kept entry cast to an int, a created one the id made for its name. */
  ghost predicate LinkRealizes(names: map<int, string>, step: Step, refId: int)
  {
    match step
    case Keep(r) => refId == Strings.Intval(r)
    case Create(n) => exists id: nat :: id in names && names[id] == n && refId == Strings.Intval(Strings.Decimal(id))
  }

  /**
   * The link rows a saved request adds: the old rows stay first, followed by
   * one row per planned entry for the new menu, in plan order.
   */
  ghost predicate LinkedByPlan(before: seq<Tables.Link>, after: seq<Tables.Link>, menuId: int,
                               names: map<int, string>, steps: seq<Step>)
  {
    |after| == |before| + |steps| && after[..|before|] == before &&
    forall k :: 0 <= k < |steps| ==>
      after[|before| + k].menuId == menuId && LinkRealizes(names, steps[k], after[|before| + k].refId)
  }

  /** Inserting the processed entries as ids links the new menu as planned. */
  lemma PlanLinked(before: seq<Tables.Link>, menuId: int, names: map<int, string>, steps: seq<Step>, processed: seq<string>)
    requires Realizes(names, steps, processed)
    ensures LinkedByPlan(before, before + Store.LinksTo(menuId, Ids(processed)), menuId, names, steps)
  {
    var ids := Ids(processed);
    var after := before + Store.LinksTo(menuId, ids);
    assert after[..|before|] == before;
    forall k | 0 <= k < |steps|
      ensures after[|before| + k].menuId == menuId && LinkRealizes(names, steps[k], after[|before| + k].refId)
    {
      assert after[|before| + k] == Store.LinksTo(menuId, ids)[k] == Tables.Link(menuId, Strings.Intval(processed[k]));
      assert Realized(names, steps[k], processed[k]);
    }
  }

  /** The menu row the request inserts. */
  function MenuData(post: map<string, string>, authorId: int, img: Option<string>): Store.NewMenu
  {
    Store.NewMenu(Text(post, "name"), Strings.Intval(Text(post, "prepare_time")), Strings.Intval(Text(post, "person_num")),
                  Some(authorId), Text(post, "description"), Text(post, "preparation"), Text(post, "ingredients"),
                  img, [], [])
  }

  function Text(post: map<string, string>, key: string): string
  {
    if key in post then post[key] else ""
  }

  /** The two processing loops, genres first, each against its own table. */
  method ProcessBoth(store: Store.Wejv, genres: seq<string>, tags: seq<string>,
                     customGenreNames: seq<string>, customTagNames: seq<string>)
    returns (processedGenres: seq<string>, processedTags: seq<string>)
    requires store.Valid()
    modifies store.genres, store.tags
    ensures store.Valid()
    ensures Realizes(store.genres.names, Plan(genres, customGenreNames).0, processedGenres)
    ensures Realizes(store.tags.names, Plan(tags, customTagNames).0, processedTags)
    ensures Store.Extends(old(store.genres.names), store.genres.names, customGenreNames)
    ensures Store.Extends(old(store.tags.names), store.tags.names, customTagNames)
    ensures store.genres.links == old(store.genres.links) && store.tags.links == old(store.tags.links)
  {
    processedGenres := ProcessRefs(store.genres, genres, customGenreNames);
    processedTags := ProcessRefs(store.tags, tags, customTagNames);
  }

  /**
   * Everything after the prechecks: genres and tags are processed (which
   * may create names), then the image is checked, then the recipe is
   * inserted. A refused image therefore leaves new names behind, but no
   * recipe and no links.
   */
  method SaveMenu(store: Store.Wejv, post: map<string, string>, authorId: int,
                  genres: seq<string>, tags: seq<string>, customGenreNames: seq<string>, customTagNames: seq<string>,
                  image: Option<MenuApi.Upload>, now: int, fault: Option<string>) returns (answer: Answer)
    requires store.Valid()
    modifies store, store.genres, store.tags
    ensures store.Valid()
    ensures ImageStep(image).Err? ==>
      answer == Refused(ImageStep(image).msg) && store.menus == old(store.menus) &&
      store.genres.links == old(store.genres.links) && store.tags.links == old(store.tags.links)
    ensures ImageStep(image).Ok? && fault.Some? ==>
      answer == Refused("Failed to add recipe: " + ("Failed to insert menu: " + fault.value)) && store.menus == old(store.menus)
    ensures ImageStep(image).Ok? && fault.None? ==>
      answer == Added(old(store.nextMenuId)) &&
      store.menus == old(store.menus)[old(store.nextMenuId) := Store.MenuOf(MenuData(post, authorId, ImageStep(image).value), now)]
    ensures Store.Extends(old(store.genres.names), store.genres.names, customGenreNames)
    ensures Store.Extends(old(store.tags.names), store.tags.names, customTagNames)
    ensures ImageStep(image).Ok? && fault.Some? ==>
      store.genres.links == old(store.genres.links) && store.tags.links == old(store.tags.links)
    ensures ImageStep(image).Ok? && fault.None? ==>
      LinkedByPlan(old(store.genres.links), store.genres.links, old(store.nextMenuId), store.genres.names,
                   Plan(genres, customGenreNames).0) &&
      LinkedByPlan(old(store.tags.links), store.tags.links, old(store.nextMenuId), store.tags.names,
                   Plan(tags, customTagNames).0)
    ensures MenuApi.OthersKept(old(store.Snapshot()), store.Snapshot())
  {
    var processedGenres, processedTags := ProcessBoth(store, genres, tags, customGenreNames, customTagNames);
    ghost var genreLinks, tagLinks, menuId := store.genres.links, store.tags.links, store.nextMenuId;
    PlanLinked(genreLinks, menuId, store.genres.names, Plan(genres, customGenreNames).0, processedGenres);
    PlanLinked(tagLinks, menuId, store.tags.names, Plan(tags, customTagNames).0, processedTags);
    answer := InsertChecked(store, post, authorId, ImageStep(image), Ids(processedGenres), Ids(processedTags), now, fault);
  }

  /** The image check and the insertion, once the genre and tag ids are known; names are not touched. */
  method InsertChecked(store: Store.Wejv, post: map<string, string>, authorId: int, img: Result<Option<string>>,
                       genreIds: seq<int>, tagIds: seq<int>, now: int, fault: Option<string>) returns (answer: Answer)
    requires store.Valid()
    modifies store, store.genres, store.tags
    ensures store.Valid()
    ensures store.genres.names == old(store.genres.names) && store.tags.names == old(store.tags.names)
    ensures img.Err? ==>
      answer == Refused(img.msg) && store.menus == old(store.menus) &&
      store.genres.links == old(store.genres.links) && store.tags.links == old(store.tags.links)
    ensures img.Ok? && fault.Some? ==>
      answer == Refused("Failed to add recipe: " + ("Failed to insert menu: " + fault.value)) && store.menus == old(store.menus)
    ensures img.Ok? && fault.None? ==>
      answer == Added(old(store.nextMenuId)) &&
      store.menus == old(store.menus)[old(store.nextMenuId) := Store.MenuOf(MenuData(post, authorId, img.value), now)]
    ensures img.Ok? && fault.Some? ==>
      store.genres.links == old(store.genres.links) && store.tags.links == old(store.tags.links)
    ensures img.Ok? && fault.None? ==>
      store.genres.links == old(store.genres.links) + Store.LinksTo(old(store.nextMenuId), genreIds) &&
      store.tags.links == old(store.tags.links) + Store.LinksTo(old(store.nextMenuId), tagIds)
    ensures MenuApi.OthersKept(old(store.Snapshot()), store.Snapshot())
  {
    if img.Err? {
      return Refused(img.msg);
    }
    var data := MenuData(post, authorId, img.value);
    var linked := data.(genres := genreIds, tags := tagIds);
    assert Store.MenuOf(linked, now) == Store.MenuOf(data, now);
    var r := store.InsertMenu(linked, now, fault);
    match r
    case Ok(id) => answer := Added(id);
    case Err(msg) => answer := Refused("Failed to add recipe: " + msg);
  }

  /**
   * The endpoint for a POST request: the prechecks refuse without touching
   * the store; otherwise the request is saved as SaveMenu describes, with the
   * user's author id as the recipe's author.
   */
  method AddMenu(store: Store.Wejv, post: map<string, string>,
                 genres: seq<string>, tags: seq<string>, customGenreNames: seq<string>, customTagNames: seq<string>,
                 image: Option<MenuApi.Upload>, now: int, fault: Option<string>) returns (answer: Answer)
    requires store.Valid()
    modifies store, store.genres, store.tags
    ensures store.Valid()
    ensures Precheck(old(store.users), old(store.userAuthors), post).Some? ==>
      answer == Refused(Precheck(old(store.users), old(store.userAuthors), post).value) &&
      store.Snapshot() == old(store.Snapshot())
    ensures Precheck(old(store.users), old(store.userAuthors), post).None? && ImageStep(image).Ok? && fault.None? ==>
      var author := AuthorOf(old(store.userAuthors), UserIdOf(post)).value;
      answer == Added(old(store.nextMenuId)) &&
      store.menus == old(store.menus)[old(store.nextMenuId) := Store.MenuOf(MenuData(post, author, ImageStep(image).value), now)]
    ensures answer.Refused? ==> store.menus == old(store.menus)
    ensures Precheck(old(store.users), old(store.userAuthors), post).None? && ImageStep(image).Ok? && fault.Some? ==>
      answer == Refused("Failed to add recipe: " + ("Failed to insert menu: " + fault.value)) &&
      store.genres.links == old(store.genres.links) && store.tags.links == old(store.tags.links)
    ensures Precheck(old(store.users), old(store.userAuthors), post).None? && ImageStep(image).Ok? && fault.None? ==>
      LinkedByPlan(old(store.genres.links), store.genres.links, old(store.nextMenuId), store.genres.names,
                   Plan(genres, customGenreNames).0) &&
      LinkedByPlan(old(store.tags.links), store.tags.links, old(store.nextMenuId), store.tags.names,
                   Plan(tags, customTagNames).0)
    ensures Store.Extends(old(store.genres.names), store.genres.names, customGenreNames)
    ensures Store.Extends(old(store.tags.names), store.tags.names, customTagNames)
    ensures MenuApi.OthersKept(old(store.Snapshot()), store.Snapshot())
  {
    var userId := UserIdOf(post);
    if userId <= 0 {
      return Refused("User not authenticated");
    }
    if userId !in store.users {
      return Refused("User not found");
    }
    var author := AuthorOf(store.userAuthors, userId);
    if author.None? {
      return Refused("Author not found for user");
    }
    var missing := MissingField(post);
    if missing.Some? {
      return Refused("Missing required field: " + missing.value);
    }
    answer := SaveMenu(store, post, author.value, genres, tags, customGenreNames, customTagNames, image, now, fault);
  }
}
