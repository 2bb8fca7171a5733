/** Loops over a set in no particular order: what is done, what is left, and what they make together. */
module Visits {

  ghost predicate Visiting<T>(all: set<T>, todo: set<T>, done: set<T>) {
    todo + done == all && todo !! done
  }

  lemma VisitsBegin<T>(all: set<T>)
    ensures Visiting(all, all, {})
  {
  }

  lemma VisitNext<T>(all: set<T>, todo: set<T>, done: set<T>, x: T)
    requires Visiting(all, todo, done) && x in todo
    ensures x in all && x !in done
    ensures Visiting(all, todo - {x}, done + {x})
  {
  }

  lemma VisitsEnd<T>(all: set<T>, todo: set<T>, done: set<T>)
    requires Visiting(all, todo, done) && todo == {}
    ensures done == all
  {
  }
}
