/** The small slice of the browser's document model that the page scripts
    touch: elements that a query may fail to find, and class lists. */
module Dom {

  /** The result of `querySelector`: an element, or `null` when nothing matches. */
  datatype Option<+T> = None | Some(value: T)

  /** An element's `classList`, as the set of class names it holds. */
  type ClassList = set<string>

  /** `classList.add(name)`: the name is present afterwards, nothing else changes. */
  function Add(cl: ClassList, name: string): (r: ClassList)
    ensures name in r
    ensures r - {name} == cl - {name}
  {
    cl + {name}
  }

  /** `classList.remove(name)`: the name is absent afterwards, nothing else changes. */
  function Remove(cl: ClassList, name: string): (r: ClassList)
    ensures name !in r
    ensures r - {name} == cl - {name}
  {
    cl - {name}
  }

  /** `classList.toggle(name)`: flips the presence of the name, nothing else changes. */
  function Toggle(cl: ClassList, name: string): (r: ClassList)
    ensures name in r <==> name !in cl
    ensures r - {name} == cl - {name}
  {
    if name in cl then Remove(cl, name) else Add(cl, name)
  }

  /** Toggling the same class twice restores the class list. */
  lemma ToggleTwice(cl: ClassList, name: string)
    ensures Toggle(Toggle(cl, name), name) == cl
  {
  }
}
