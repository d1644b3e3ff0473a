/** The favourites set shared by both front ends: toggled one identifier at a time. */
module Favorites {

  /** The set after toggling `id`: removed when present, added when absent. */
  function Toggled<T>(s: set<T>, id: T): (r: set<T>)
    ensures id in r <==> id !in s
    ensures r - {id} == s - {id}
  {
    if id in s then s - {id} else s + {id}
  }

  /**
   * `toggleFavorite`: copy the previous set, then delete `id` if it is there
   * and add it otherwise.
   */
  method ToggleFavorite<T>(prev: set<T>, id: T) returns (next: set<T>)
    ensures next == Toggled(prev, id)
  {
    next := prev;
    if id in next {
      next := next - {id};
    } else {
      next := next + {id};
    }
  }

  /** Toggling the same identifier twice restores the set. */
  lemma ToggleTwice<T>(s: set<T>, id: T)
    ensures Toggled(Toggled(s, id), id) == s
  {
  }

  /** Toggling changes the size by exactly one. */
  lemma ToggleSize<T>(s: set<T>, id: T)
    ensures |Toggled(s, id)| == if id in s then |s| - 1 else |s| + 1
  {
  }

  /** Toggles of different identifiers commute. */
  lemma ToggleCommute<T>(s: set<T>, a: T, b: T)
    ensures Toggled(Toggled(s, a), b) == Toggled(Toggled(s, b), a)
  {
  }
}
