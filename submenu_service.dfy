/**
  `SubmenuService`: read-through caching under `"{m}_all"` and `"{m}_{s}"`,
  and the cache commands each mutation queues.
 */
module SubmenuService {
  import opened Common
  import opened CacheKeys
  import opened Catalog
  import opened RedisCache
  import opened BackgroundTasks

  /** What `add_submenu` queues once the repository has returned `data`. */
  function AddSubmenuTasks(menuId: string, data: Record): seq<Command<Value>>
  {
    [MultiplyDelete([AllKey, SubmenuListKey(menuId), MenuKey(menuId)]), Add(SubmenuKey(menuId, data.id), Item(data))]
  }

  /** What `update_submenu` queues once the repository has returned `data`. */
  function UpdateSubmenuTasks(menuId: string, data: Record): seq<Command<Value>>
  {
    [Delete(SubmenuListKey(menuId)), Add(SubmenuKey(menuId, data.id), Item(data))]
  }

  /** `get_all_submenus`: any stored value under `"{m}_all"` is a hit. */
  method GetAllSubmenus(cache: Cache<Value>, tasks: Tasks<Value>, menuId: string, repository: seq<Record>)
    returns (r: Value, queried: bool)
    modifies tasks
    ensures queried <==> cache.Get(SubmenuListKey(menuId)).None?
    ensures !queried ==> r == cache.Get(SubmenuListKey(menuId)).value && tasks.queue == old(tasks.queue)
    ensures queried ==>
              r == Items(repository) &&
              tasks.queue == old(tasks.queue) + [Add(SubmenuListKey(menuId), Items(repository))]
  {
    var cached := cache.Get(SubmenuListKey(menuId));
    if cached.Some? {
      return cached.value, false;
    }
    r, queried := Items(repository), true;
    tasks.AddTask(Add(SubmenuListKey(menuId), r));
  }

  /** `get_submenu_by_id`: a hit needs a truthy stored value under `"{m}_{s}"`. */
  method GetSubmenuById(cache: Cache<Value>, tasks: Tasks<Value>, menuId: string, submenuId: string,
                        repository: Result<Record>)
    returns (r: Result<Value>, queried: bool)
    modifies tasks
    ensures var c := cache.Get(SubmenuKey(menuId, submenuId)); queried <==> !(c.Some? && Truthy(c.value))
    ensures !queried ==> r == Ok(cache.Get(SubmenuKey(menuId, submenuId)).value) && tasks.queue == old(tasks.queue)
    ensures queried && repository.Err? ==> r == Err(repository.error) && tasks.queue == old(tasks.queue)
    ensures queried && repository.Ok? ==>
              r == Ok(Item(repository.value)) &&
              tasks.queue == old(tasks.queue) + [Add(SubmenuKey(menuId, submenuId), Item(repository.value))]
  {
    var key := SubmenuKey(menuId, submenuId);
    var cached := cache.Get(key);
    if cached.Some? && Truthy(cached.value) {
      return Ok(cached.value), false;
    }
    queried := true;
    match repository
    case Err(e) =>
      r := Err(e);
    case Ok(data) =>
      tasks.AddTask(Add(key, Item(data)));
      r := Ok(Item(data));
  }

  /** `add_submenu`: commands are queued only after the repository succeeded. */
  method AddSubmenu(tasks: Tasks<Value>, menuId: string, repository: Result<Record>) returns (r: Result<Record>)
    modifies tasks
    ensures r == repository
    ensures repository.Ok? ==> tasks.queue == old(tasks.queue) + AddSubmenuTasks(menuId, repository.value)
    ensures repository.Err? ==> tasks.queue == old(tasks.queue)
  {
    r := repository;
    if repository.Ok? {
      var data := repository.value;
      tasks.AddTask(MultiplyDelete([AllKey, SubmenuListKey(menuId), MenuKey(menuId)]));
      tasks.AddTask(Add(SubmenuKey(menuId, data.id), Item(data)));
    }
  }

  /** `update_submenu`: commands are queued only after the repository succeeded. */
  method UpdateSubmenu(tasks: Tasks<Value>, menuId: string, repository: Result<Record>) returns (r: Result<Record>)
    modifies tasks
    ensures r == repository
    ensures repository.Ok? ==> tasks.queue == old(tasks.queue) + UpdateSubmenuTasks(menuId, repository.value)
    ensures repository.Err? ==> tasks.queue == old(tasks.queue)
  {
    r := repository;
    if repository.Ok? {
      var data := repository.value;
      tasks.AddTask(Delete(SubmenuListKey(menuId)));
      tasks.AddTask(Add(SubmenuKey(menuId, data.id), Item(data)));
    }
  }

  /** `delete_submenu`: a cascade rooted at the MENU id, queued before the repository call. */
  method DeleteSubmenu(tasks: Tasks<Value>, menuId: string, repository: Result<Confirmation>)
    returns (r: Result<Confirmation>)
    modifies tasks
    ensures r == repository
    ensures tasks.queue == old(tasks.queue) + [CascadeDelete(MenuKey(menuId))]
  {
    tasks.AddTask(CascadeDelete(MenuKey(menuId)));
    r := repository;
  }

  /**
    After the commands queued by `add_submenu` have run, the menu list, the menu's
    submenu list, the menu itself (whose `submenus_count` changed) and the two
    heavy views are gone; the new submenu is cached; every other key is as it was.
   */
  lemma AddSubmenuInvalidates(m: Store<Value>, menuId: string, data: Record)
    requires IsUuid(menuId) && IsUuid(data.id)
    ensures var r := ApplyAll(m, AddSubmenuTasks(menuId, data));
      && AllKey !in r && FullKey !in r && DbDataKey !in r
      && SubmenuListKey(menuId) !in r && MenuKey(menuId) !in r
      && SubmenuKey(menuId, data.id) in r && r[SubmenuKey(menuId, data.id)] == Entry(Item(data), ExpiredTime)
      && forall k :: k !in {AllKey, FullKey, DbDataKey, SubmenuListKey(menuId), MenuKey(menuId), SubmenuKey(menuId, data.id)} ==>
           SameAt(m, r, k)
  {
    var ks := [AllKey, SubmenuListKey(menuId), MenuKey(menuId)];
    ApplyTwo(m, MultiplyDelete(ks), Add(SubmenuKey(menuId, data.id), Item(data)));
    KeyFamiliesAreInjective(menuId, data.id, data.id, menuId, data.id, data.id);
    KeyFamiliesAreDisjoint(menuId, data.id, data.id, menuId, data.id);
  }

  /**
    After the commands queued by `update_submenu` have run, the menu's submenu list and
    the heavy views are gone and the submenu is re-cached, but `'all'` and the
    menu's own entry are not invalidated.
   */
  lemma UpdateSubmenuKeepsMenu(m: Store<Value>, menuId: string, data: Record)
    requires IsUuid(menuId) && IsUuid(data.id)
    ensures var r := ApplyAll(m, UpdateSubmenuTasks(menuId, data));
      && FullKey !in r && DbDataKey !in r && SubmenuListKey(menuId) !in r
      && SubmenuKey(menuId, data.id) in r && r[SubmenuKey(menuId, data.id)] == Entry(Item(data), ExpiredTime)
      && SameAt(m, r, AllKey) && SameAt(m, r, MenuKey(menuId))
      && forall k :: k !in {FullKey, DbDataKey, SubmenuListKey(menuId), SubmenuKey(menuId, data.id)} ==> SameAt(m, r, k)
  {
    ApplyTwo(m, Delete(SubmenuListKey(menuId)), Add(SubmenuKey(menuId, data.id), Item(data)));
    KeyFamiliesAreInjective(menuId, data.id, data.id, menuId, data.id, data.id);
    KeyFamiliesAreDisjoint(menuId, data.id, data.id, menuId, data.id);
  }

  /**
    After the command queued by `delete_submenu` has run, every key of the parent menu's
    subtree is gone, sibling submenus included.
   */
  lemma DeleteSubmenuClearsMenuSubtree(m: Store<Value>, menuId: string, submenuId: string, sibling: string)
    requires IsUuid(menuId) && IsUuid(submenuId) && IsUuid(sibling)
    ensures var r := ApplyAll(m, [CascadeDelete(MenuKey(menuId))]);
      && AllKey !in r && FullKey !in r && DbDataKey !in r
      && SubmenuKey(menuId, submenuId) !in r && SubmenuKey(menuId, sibling) !in r
      && MenuKey(menuId) !in r && SubmenuListKey(menuId) !in r
      && forall d :: IsUuid(d) ==> DishKey(menuId, submenuId, d) !in r && DishKey(menuId, sibling, d) !in r
  {
    ApplyOne(m, CascadeDelete(MenuKey(menuId)));
    CascadeClearsMenuSubtree(m, menuId);
    assert UnderMenu(SubmenuKey(menuId, submenuId), menuId) && UnderMenu(SubmenuKey(menuId, sibling), menuId);
    forall d | IsUuid(d)
      ensures UnderMenu(DishKey(menuId, submenuId, d), menuId) && UnderMenu(DishKey(menuId, sibling, d), menuId)
    {
    }
  }

  /**
    Two submenus added to one menu: the menu's entry and both lists are gone,
    so the next read of the menu counts both, while both submenus stay cached.
   */
  lemma TwoSubmenuAddsRefreshMenu(m: Store<Value>, menuId: string, a: Record, b: Record)
    requires IsUuid(menuId) && IsUuid(a.id) && IsUuid(b.id) && a.id != b.id
    ensures var r := ApplyAll(m, AddSubmenuTasks(menuId, a) + AddSubmenuTasks(menuId, b));
      && MenuKey(menuId) !in r && AllKey !in r && SubmenuListKey(menuId) !in r
      && SubmenuKey(menuId, a.id) in r && r[SubmenuKey(menuId, a.id)] == Entry(Item(a), ExpiredTime)
      && SubmenuKey(menuId, b.id) in r && r[SubmenuKey(menuId, b.id)] == Entry(Item(b), ExpiredTime)
  {
    var m1 := ApplyAll(m, AddSubmenuTasks(menuId, a));
    ApplyAllAppend(m, AddSubmenuTasks(menuId, a), AddSubmenuTasks(menuId, b));
    AddSubmenuInvalidates(m, menuId, a);
    AddSubmenuInvalidates(m1, menuId, b);
    KeyFamiliesAreInjective(menuId, a.id, a.id, menuId, b.id, b.id);
    KeyFamiliesAreDisjoint(menuId, a.id, a.id, menuId, b.id);
    assert SameAt(m1, ApplyAll(m1, AddSubmenuTasks(menuId, b)), SubmenuKey(menuId, a.id));
  }
}
