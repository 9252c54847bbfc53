/** `entry_comparator` of src/data_structures/global_boards/entry.hpp:23-35: by time, then by id. */
module EntryOrder {
  predicate Earlier(timestampA: int, idA: nat, timestampB: int, idB: nat) {
    if timestampA != timestampB then timestampA < timestampB else idA < idB
  }
}
