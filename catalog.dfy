/**
  The catalogue's data model as the cache layer sees it: the response records
  the repositories return, the nested full-menu view, the flat tuples of the
  reconciliation job, and the value stored under a cache key.
 */
module Catalog {
  import opened Common

  /** A response record (`ResponseMenu`, `ResponseSubmenu`, `ResponseDish`); prices are opaque text. */
  datatype Record =
    | MenuRecord(id: string, title: string, description: Option<string>, submenusCount: nat, dishesCount: nat)
    | SubmenuRecord(id: string, title: string, description: Option<string>, dishesCount: nat)
    | DishRecord(id: string, title: string, description: Option<string>, price: string)

  /** The outcome of a repository delete (`ResponseMessage`). */
  datatype Confirmation = Confirmation(status: bool, message: string)

  /** Nested view returned by the full-menu repository. */
  datatype FullDish = FullDish(id: string, title: string, description: Option<string>, price: string)
  datatype FullSubmenu = FullSubmenu(id: string, title: string, description: Option<string>, dishes: seq<FullDish>)
  datatype FullMenu = FullMenu(id: string, title: string, description: Option<string>, submenus: seq<FullSubmenu>)

  /**
    One field of a reconciliation tuple: Python's `None`, a spreadsheet cell
    left empty and copied unconverted (pandas' NaN), or a value.
   */
  datatype Field = NoneField | Blank | Val(text: string)

  type Tuple = seq<Field>

  /** No tuple holds an empty cell's NaN. */
  predicate NaNFree(rows: seq<Tuple>)
  {
    forall i :: 0 <= i < |rows| ==> Blank !in rows[i]
  }

  /** What the services and the reconciliation job store under a cache key. */
  datatype Value =
    | Item(record: Record)          // one entity
    | Items(records: seq<Record>)   // an entity list
    | Tree(menus: seq<FullMenu>)    // the nested view
    | Rows(rows: seq<Tuple>)        // a reconciliation snapshot

  /** Python truthiness of a stored value: models are always truthy, lists when non-empty. */
  predicate Truthy(v: Value)
  {
    match v
    case Item(_) => true
    case Items(rs) => |rs| > 0
    case Tree(ms) => |ms| > 0
    case Rows(rs) => |rs| > 0
  }

  /**
    Python's `==` between a stored value and a list of tuples built apart
    from it (from the sheet, a query or an unpickled cache entry).  The two
    sides never share a NaN object, and NaN equals nothing, so a NaN field
    anywhere makes the lists differ.
   */
  predicate EqualsRows(v: Value, rows: seq<Tuple>)
  {
    v == Rows(rows) && NaNFree(rows)
  }

  /** The repositories' failures: HTTP 404 ('menu not found', ...) and HTTP 409 ('This title already exists'). */
  datatype RepoError = NotFound(message: string) | TitleConflict

  datatype Result<+T> = Ok(value: T) | Err(error: RepoError)
}
