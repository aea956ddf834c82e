/** Value types shared by the list view and the root controller. */
module Types {

  /** A to-do item as the loader hands it over; the core never changes one. */
  datatype Todo = Todo(id: int, title: string, completed: bool)

  /** A value that may be absent, such as the root controller's list before the load settles. */
  datatype Option<T> = None | Some(value: T)
}
