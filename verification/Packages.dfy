/** What package metadata is made of, as far as several parts need it. */
module Packages {

  /** A dependency on a name, numbered; a conflict asks for its absence. */
  datatype Dep = Dep(name: nat, conflict: bool)
}
