/** The browser's persistent key/value store (`localStorage`) as the routine
    page uses it. Values are held already decoded: a task list, a set of
    completed indices or a date marker, instead of the JSON text the browser
    keeps. */
module Storage {

  datatype Option<T> = None | Some(value: T)

  /** A decoded stored value. */
  datatype Stored =
    | TaskList(tasks: seq<string>)
    | IndexSet(indices: set<nat>)
    | Day(date: string)

  type Items = map<string, Stored>

  /** `localStorage`: one shared object, updated in place by `setItem` and
      `removeItem`. */
  class Store {
    var items: Items

    constructor (initial: Items)
      ensures items == initial
    {
      items := initial;
    }

    /** `getItem(key)`: the stored value, or `None` where the browser
        returns `null`. */
    function GetItem(key: string): Option<Stored>
      reads this
    {
      if key in items then Some(items[key]) else None
    }

    method SetItem(key: string, value: Stored)
      modifies this
      ensures items == old(items)[key := value]
    {
      items := items[key := value];
    }

    method RemoveItem(key: string)
      modifies this
      ensures items == old(items) - {key}
    {
      items := items - {key};
    }
  }
}
