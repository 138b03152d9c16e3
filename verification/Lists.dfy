/**
 Lists of addresses.
 */
module Lists {
  /** Nothing occurs twice. */
  ghost predicate Distinct(list: seq<nat>) {
    list == [] || (list[0] !in list[1..] && Distinct(list[1..]))
  }
}
