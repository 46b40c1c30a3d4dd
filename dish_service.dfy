/**
  `DishService`: read-through caching under `"{m}_{s}_all"` and
  `"{m}_{s}_{d}"`, and the cache commands each mutation queues.
 */
module DishService {
  import opened Common
  import opened CacheKeys
  import opened Catalog
  import opened RedisCache
  import opened BackgroundTasks

  /** What `add_dish` queues once the repository has returned `data`. */
  function AddDishTasks(menuId: string, submenuId: string, data: Record): seq<Command<Value>>
  {
    [CascadeDelete(MenuKey(menuId)), Add(DishKey(menuId, submenuId, data.id), Item(data))]
  }

  /** What `update_dish` queues once the repository has returned `data`. */
  function UpdateDishTasks(menuId: string, submenuId: string, data: Record): seq<Command<Value>>
  {
    [Delete(DishListKey(menuId, submenuId)), Add(DishKey(menuId, submenuId, data.id), Item(data))]
  }

  /** `get_all_dishes`: any stored value under `"{m}_{s}_all"` is a hit. */
  method GetAllDishes(cache: Cache<Value>, tasks: Tasks<Value>, menuId: string, submenuId: string,
                      repository: seq<Record>)
    returns (r: Value, queried: bool)
    modifies tasks
    ensures queried <==> cache.Get(DishListKey(menuId, submenuId)).None?
    ensures !queried ==> r == cache.Get(DishListKey(menuId, submenuId)).value && tasks.queue == old(tasks.queue)
    ensures queried ==>
              r == Items(repository) &&
              tasks.queue == old(tasks.queue) + [Add(DishListKey(menuId, submenuId), Items(repository))]
  {
    var cached := cache.Get(DishListKey(menuId, submenuId));
    if cached.Some? {
      return cached.value, false;
    }
    r, queried := Items(repository), true;
    tasks.AddTask(Add(DishListKey(menuId, submenuId), r));
  }

  /** `get_dish_by_id`: unlike menus and submenus, any stored value (`is not None`) is a hit. */
  method GetDishById(cache: Cache<Value>, tasks: Tasks<Value>, menuId: string, submenuId: string, dishId: string,
                     repository: Result<Record>)
    returns (r: Result<Value>, queried: bool)
    modifies tasks
    ensures queried <==> cache.Get(DishKey(menuId, submenuId, dishId)).None?
    ensures !queried ==> r == Ok(cache.Get(DishKey(menuId, submenuId, dishId)).value) && tasks.queue == old(tasks.queue)
    ensures queried && repository.Err? ==> r == Err(repository.error) && tasks.queue == old(tasks.queue)
    ensures queried && repository.Ok? ==>
              r == Ok(Item(repository.value)) &&
              tasks.queue == old(tasks.queue) + [Add(DishKey(menuId, submenuId, dishId), Item(repository.value))]
  {
    var key := DishKey(menuId, submenuId, dishId);
    var cached := cache.Get(key);
    if cached.Some? {
      return Ok(cached.value), false;
    }
    queried := true;
    match repository
    case Err(e) =>
      r := Err(e);
    case Ok(data) =>
      tasks.AddTask(Add(key, Item(data)));
      r := Ok(Item(data));
  }

  /** `add_dish`: commands are queued only after the repository succeeded. */
  method AddDish(tasks: Tasks<Value>, menuId: string, submenuId: string, repository: Result<Record>)
    returns (r: Result<Record>)
    modifies tasks
    ensures r == repository
    ensures repository.Ok? ==> tasks.queue == old(tasks.queue) + AddDishTasks(menuId, submenuId, repository.value)
    ensures repository.Err? ==> tasks.queue == old(tasks.queue)
  {
    r := repository;
    if repository.Ok? {
      var data := repository.value;
      tasks.AddTask(CascadeDelete(MenuKey(menuId)));
      tasks.AddTask(Add(DishKey(menuId, submenuId, data.id), Item(data)));
    }
  }

  /** `update_dish`: commands are queued only after the repository succeeded. */
  method UpdateDish(tasks: Tasks<Value>, menuId: string, submenuId: string, repository: Result<Record>)
    returns (r: Result<Record>)
    modifies tasks
    ensures r == repository
    ensures repository.Ok? ==> tasks.queue == old(tasks.queue) + UpdateDishTasks(menuId, submenuId, repository.value)
    ensures repository.Err? ==> tasks.queue == old(tasks.queue)
  {
    r := repository;
    if repository.Ok? {
      var data := repository.value;
      tasks.AddTask(Delete(DishListKey(menuId, submenuId)));
      tasks.AddTask(Add(DishKey(menuId, submenuId, data.id), Item(data)));
    }
  }

  /** `delete_dish`: a cascade rooted at the menu id, queued before the repository call. */
  method DeleteDish(tasks: Tasks<Value>, menuId: string, repository: Result<Confirmation>)
    returns (r: Result<Confirmation>)
    modifies tasks
    ensures r == repository
    ensures tasks.queue == old(tasks.queue) + [CascadeDelete(MenuKey(menuId))]
  {
    tasks.AddTask(CascadeDelete(MenuKey(menuId)));
    r := repository;
  }

  /**
    After the commands queued by `add_dish` have run, the new dish is the only key of
    the menu's subtree left: the menu and submenu entries (whose dish counts
    changed) and every list are gone, as are the global views; other menus'
    subtrees are as they were.
   */
  lemma AddDishInvalidates(m: Store<Value>, menuId: string, submenuId: string, data: Record)
    requires IsUuid(menuId) && IsUuid(submenuId) && IsUuid(data.id)
    ensures var r := ApplyAll(m, AddDishTasks(menuId, submenuId, data));
      && AllKey !in r && FullKey !in r && DbDataKey !in r
      && MenuKey(menuId) !in r && SubmenuKey(menuId, submenuId) !in r
      && SubmenuListKey(menuId) !in r && DishListKey(menuId, submenuId) !in r
      && DishKey(menuId, submenuId, data.id) in r
      && r[DishKey(menuId, submenuId, data.id)] == Entry(Item(data), ExpiredTime)
      && (forall k :: UnderMenu(k, menuId) && k != DishKey(menuId, submenuId, data.id) ==> k !in r)
      && (forall k, other :: IsUuid(other) && other != menuId && UnderMenu(k, other) ==> SameAt(m, r, k))
  {
    ApplyTwo(m, CascadeDelete(MenuKey(menuId)), Add(DishKey(menuId, submenuId, data.id), Item(data)));
    CascadeClearsMenuSubtree(m, menuId);
    assert UnderMenu(MenuKey(menuId), menuId) && UnderMenu(SubmenuKey(menuId, submenuId), menuId);
    assert UnderMenu(SubmenuListKey(menuId), menuId) && UnderMenu(DishListKey(menuId, submenuId), menuId);
    forall k, other | IsUuid(other) && other != menuId && UnderMenu(k, other)
      ensures k != DishKey(menuId, submenuId, data.id)
    {
      UnderMenuPrefix(k, other, menuId);
      SubtreeKeysStartWithMenu(menuId, submenuId, data.id);
    }
  }

  /**
    After the commands queued by `update_dish` have run, the submenu's dish list and the
    heavy views are gone and the dish is re-cached; the menu list, the menu
    and the submenu entries are not invalidated.
   */
  lemma UpdateDishKeepsParents(m: Store<Value>, menuId: string, submenuId: string, data: Record)
    requires IsUuid(menuId) && IsUuid(submenuId) && IsUuid(data.id)
    ensures var r := ApplyAll(m, UpdateDishTasks(menuId, submenuId, data));
      && FullKey !in r && DbDataKey !in r && DishListKey(menuId, submenuId) !in r
      && DishKey(menuId, submenuId, data.id) in r
      && r[DishKey(menuId, submenuId, data.id)] == Entry(Item(data), ExpiredTime)
      && SameAt(m, r, AllKey) && SameAt(m, r, MenuKey(menuId)) && SameAt(m, r, SubmenuKey(menuId, submenuId))
      && forall k :: k !in {FullKey, DbDataKey, DishListKey(menuId, submenuId), DishKey(menuId, submenuId, data.id)} ==>
           SameAt(m, r, k)
  {
    ApplyTwo(m, Delete(DishListKey(menuId, submenuId)), Add(DishKey(menuId, submenuId, data.id), Item(data)));
    KeyFamiliesAreInjective(menuId, submenuId, data.id, menuId, submenuId, data.id);
    KeyFamiliesAreDisjoint(menuId, submenuId, data.id, menuId, submenuId);
  }

  /**
    Two dishes added to one submenu: the menu and submenu entries are gone, so
    the next reads count both dishes, but the second add's cascade also
    evicts the first dish, leaving only the second one cached.
   */
  lemma TwoDishAddsKeepOnlyLatest(m: Store<Value>, menuId: string, submenuId: string, a: Record, b: Record)
    requires IsUuid(menuId) && IsUuid(submenuId) && IsUuid(a.id) && IsUuid(b.id) && a.id != b.id
    ensures var r := ApplyAll(m, AddDishTasks(menuId, submenuId, a) + AddDishTasks(menuId, submenuId, b));
      && MenuKey(menuId) !in r && SubmenuKey(menuId, submenuId) !in r
      && DishKey(menuId, submenuId, a.id) !in r
      && DishKey(menuId, submenuId, b.id) in r
      && r[DishKey(menuId, submenuId, b.id)] == Entry(Item(b), ExpiredTime)
  {
    var m1 := ApplyAll(m, AddDishTasks(menuId, submenuId, a));
    ApplyAllAppend(m, AddDishTasks(menuId, submenuId, a), AddDishTasks(menuId, submenuId, b));
    AddDishInvalidates(m1, menuId, submenuId, b);
    KeyFamiliesAreInjective(menuId, submenuId, a.id, menuId, submenuId, b.id);
    KeyFamiliesAreDisjoint(menuId, submenuId, a.id, menuId, submenuId);
    assert UnderMenu(DishKey(menuId, submenuId, a.id), menuId);
  }
}
