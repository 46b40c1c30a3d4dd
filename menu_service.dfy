/**
  `MenuService`: read-through caching of the menu list under `'all'` and of a
  menu under its id, and the cache commands each mutation queues.  The
  repository is not modelled: its answer to the call the service would make
  is a parameter, and `queried` reports whether the service made the call.
 */
module MenuService {
  import opened Common
  import opened CacheKeys
  import opened Catalog
  import opened RedisCache
  import opened BackgroundTasks

  /** What `add_menu` and `update_menu` queue once the repository has returned `data`. */
  function MenuWriteTasks(data: Record): seq<Command<Value>>
  {
    [Delete(AllKey), Add(MenuKey(data.id), Item(data))]
  }

  /** `get_all_menus`: a stored value under `'all'`, even an empty list, is a hit. */
  method GetAllMenus(cache: Cache<Value>, tasks: Tasks<Value>, repository: seq<Record>)
    returns (r: Value, queried: bool)
    modifies tasks
    ensures queried <==> cache.Get(AllKey).None?
    ensures !queried ==> r == cache.Get(AllKey).value && tasks.queue == old(tasks.queue)
    ensures queried ==> r == Items(repository) && tasks.queue == old(tasks.queue) + [Add(AllKey, Items(repository))]
  {
    var cached := cache.Get(AllKey);
    if cached.Some? {
      return cached.value, false;
    }
    r, queried := Items(repository), true;
    tasks.AddTask(Add(AllKey, r));
  }

  /** `get_menu_by_id`: a hit needs a truthy stored value (`if cache:`); a repository error queues nothing. */
  method GetMenuById(cache: Cache<Value>, tasks: Tasks<Value>, menuId: string, repository: Result<Record>)
    returns (r: Result<Value>, queried: bool)
    modifies tasks
    ensures var c := cache.Get(MenuKey(menuId)); queried <==> !(c.Some? && Truthy(c.value))
    ensures !queried ==> r == Ok(cache.Get(MenuKey(menuId)).value) && tasks.queue == old(tasks.queue)
    ensures queried && repository.Err? ==> r == Err(repository.error) && tasks.queue == old(tasks.queue)
    ensures queried && repository.Ok? ==>
              r == Ok(Item(repository.value)) &&
              tasks.queue == old(tasks.queue) + [Add(MenuKey(menuId), Item(repository.value))]
  {
    var cached := cache.Get(MenuKey(menuId));
    if cached.Some? && Truthy(cached.value) {
      return Ok(cached.value), false;
    }
    queried := true;
    match repository
    case Err(e) =>
      r := Err(e);
    case Ok(data) =>
      tasks.AddTask(Add(MenuKey(menuId), Item(data)));
      r := Ok(Item(data));
  }

  /** `add_menu`: queue the invalidation and the new menu's entry only after the repository succeeded. */
  method AddMenu(tasks: Tasks<Value>, repository: Result<Record>) returns (r: Result<Record>)
    modifies tasks
    ensures r == repository
    ensures repository.Ok? ==> tasks.queue == old(tasks.queue) + MenuWriteTasks(repository.value)
    ensures repository.Err? ==> tasks.queue == old(tasks.queue)
  {
    r := repository;
    if repository.Ok? {
      var data := repository.value;
      tasks.AddTask(Delete(AllKey));
      tasks.AddTask(Add(MenuKey(data.id), Item(data)));
    }
  }

  /** `update_menu`: the same commands as `add_menu`, keyed by the id the repository returns. */
  method UpdateMenu(tasks: Tasks<Value>, repository: Result<Record>) returns (r: Result<Record>)
    modifies tasks
    ensures r == repository
    ensures repository.Ok? ==> tasks.queue == old(tasks.queue) + MenuWriteTasks(repository.value)
    ensures repository.Err? ==> tasks.queue == old(tasks.queue)
  {
    r := repository;
    if repository.Ok? {
      var data := repository.value;
      tasks.AddTask(Delete(AllKey));
      tasks.AddTask(Add(MenuKey(data.id), Item(data)));
    }
  }

  /** `delete_menu`: the cascade is queued before the repository is called, whatever it answers. */
  method DeleteMenu(tasks: Tasks<Value>, menuId: string, repository: Result<Confirmation>)
    returns (r: Result<Confirmation>)
    modifies tasks
    ensures r == repository
    ensures tasks.queue == old(tasks.queue) + [CascadeDelete(MenuKey(menuId))]
  {
    tasks.AddTask(CascadeDelete(MenuKey(menuId)));
    r := repository;
  }

  /**
    After the commands queued by `add_menu`/`update_menu` have run, the three global
    views are gone, so the next `get_all_menus` reads the repository; the new
    menu is cached under its id; every other key is as it was.
   */
  lemma MenuWriteInvalidates(m: Store<Value>, data: Record)
    requires IsUuid(data.id)
    ensures var r := ApplyAll(m, MenuWriteTasks(data));
      && AllKey !in r && FullKey !in r && DbDataKey !in r
      && MenuKey(data.id) in r && r[MenuKey(data.id)] == Entry(Item(data), ExpiredTime)
      && forall k :: k !in {AllKey, FullKey, DbDataKey, MenuKey(data.id)} ==> SameAt(m, r, k)
  {
    ApplyTwo(m, Delete(AllKey), Add(MenuKey(data.id), Item(data)));
    ShortKeyMentionsNoUuid(AllKey, data.id);
    ShortKeyMentionsNoUuid(FullKey, data.id);
    ShortKeyMentionsNoUuid(DbDataKey, data.id);
  }

  /**
    After the command queued by `delete_menu` has run, no key of the menu's subtree is
    left, the global views are gone, and other menus' subtrees are untouched.
   */
  lemma DeleteMenuClearsSubtree(m: Store<Value>, menuId: string)
    requires IsUuid(menuId)
    ensures var r := ApplyAll(m, [CascadeDelete(MenuKey(menuId))]);
      && AllKey !in r && FullKey !in r && DbDataKey !in r
      && (forall k :: UnderMenu(k, menuId) ==> k !in r)
      && (forall k, other :: IsUuid(other) && other != menuId && UnderMenu(k, other) ==> SameAt(m, r, k))
  {
    ApplyOne(m, CascadeDelete(MenuKey(menuId)));
    CascadeClearsMenuSubtree(m, menuId);
  }
}
