/** Small types shared by every module of the project. */
module Common {

  datatype Option<+T> = None | Some(value: T) {
    /** This value if there is one, else `other`. */
    function Or(other: Option<T>): Option<T> {
      if Some? then this else other
    }
  }

  datatype Result<+T, +E> = Ok(value: T) | Err(error: E)

  /** A loop over a set has one more element behind it for each one taken from those ahead. */
  lemma OneLess<T>(all: set<T>, todo: set<T>, x: T)
    requires x in todo && todo <= all
    ensures all - (todo - {x}) == (all - todo) + {x}
  {
  }
}
