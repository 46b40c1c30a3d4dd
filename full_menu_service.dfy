/**
  `FullMenuService`: read-through caching of the nested view under the
  constant key `'full'`, and why every mutation makes the next read fresh.
 */
module FullMenuService {
  import opened Common
  import opened CacheKeys
  import opened Catalog
  import opened RedisCache
  import opened BackgroundTasks
  import MenuService
  import SubmenuService
  import DishService

  /** `get_full_menu`: any stored value under `'full'`, even an empty tree, is a hit. */
  method GetFullMenu(cache: Cache<Value>, tasks: Tasks<Value>, repository: seq<FullMenu>)
    returns (r: Value, queried: bool)
    modifies tasks
    ensures queried <==> cache.Get(FullKey).None?
    ensures !queried ==> r == cache.Get(FullKey).value && tasks.queue == old(tasks.queue)
    ensures queried ==> r == Tree(repository) && tasks.queue == old(tasks.queue) + [Add(FullKey, Tree(repository))]
  {
    var cached := cache.Get(FullKey);
    if cached.Some? {
      return cached.value, false;
    }
    r, queried := Tree(repository), true;
    tasks.AddTask(Add(FullKey, r));
  }

  /**
    The commands of every successful mutation remove `'full'` (and
    `'db_data'`) once drained, so the next `get_full_menu` reads the
    repository and shows the change, e.g. a patched dish.
   */
  lemma MutationsDropFullView(m: Store<Value>, menuId: string, submenuId: string, data: Record)
    requires IsUuid(menuId) && IsUuid(submenuId) && IsUuid(data.id)
    ensures var ts := [
                MenuService.MenuWriteTasks(data),
                [CascadeDelete(MenuKey(menuId))],
                SubmenuService.AddSubmenuTasks(menuId, data),
                SubmenuService.UpdateSubmenuTasks(menuId, data),
                DishService.AddDishTasks(menuId, submenuId, data),
                DishService.UpdateDishTasks(menuId, submenuId, data)];
            forall i :: 0 <= i < |ts| ==> FullKey !in ApplyAll(m, ts[i]) && DbDataKey !in ApplyAll(m, ts[i])
  {
    MenuService.MenuWriteInvalidates(m, data);
    MenuService.DeleteMenuClearsSubtree(m, menuId);
    SubmenuService.AddSubmenuInvalidates(m, menuId, data);
    SubmenuService.UpdateSubmenuKeepsMenu(m, menuId, data);
    DishService.AddDishInvalidates(m, menuId, submenuId, data);
    DishService.UpdateDishKeepsParents(m, menuId, submenuId, data);
  }
}
