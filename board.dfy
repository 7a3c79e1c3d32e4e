/** The `Board` class of board.py: its own class-level dicts, as a
    `ClassTable` (equal in content to those of `State` once both are built),
    reached through an object that looks up a given state and remembers the
    key of the last lookup. */
module Boards {
  import opened Errors
  import opened Codec
  import opened Evaluate
  import opened ClassTables
  import opened StateTracker

  class Board {
    /** The class-level dicts shared by every `Board`. */
    const table: ClassTable
    var lastState: seq<char>

    /** `__init__` enumerates the classes into the shared dicts; `last_state`
        keeps its class default "". */
    constructor (table: ClassTable)
      modifies table
      ensures this.table == table && table.Valid() && lastState == ""
    {
      this.table := table;
      lastState := "";
      new;
      table.ListAllEqvClasses();
    }

    /** `list_all_eqv_classes`, run again on the shared dicts. */
    method ListAllEqvClasses()
      modifies table
      ensures table.Valid()
    {
      table.ListAllEqvClasses();
    }

    /** `state_to_eqv_class(state)`: the key of the state's grid goes to
        `last_state`; its class id, or a KeyError when the table lacks it.
        Once the table is built, the lookup succeeds exactly for legal grids. */
    method StateToEqvClass(state: State) returns (r: Result<int>)
      requires state.Valid()
      modifies this
      ensures lastState == TableKey(state.Cells())
      ensures r == if lastState in table.stateToClass then Ok(table.stateToClass[lastState]) else Err(KeyError)
      ensures table.Valid() ==> (r.Ok? <==> IsLegal(lastState))
    {
      var s := TableKey(state.Cells());
      lastState := s;
      if table.Valid() {
        ClassOfGrid(table.stateToClass, table.classToStates, |table.classToStates|, state.Cells(), s);
      }
      if s !in table.stateToClass {
        return Err(KeyError);
      }
      return Ok(table.stateToClass[s]);
    }

    /** `eqv_class_to_move` against the key recorded by the last lookup. */
    method EqvClassToMove(cls: int) returns (r: Result<nat>)
      ensures r == table.ClassMove(cls, lastState)
    {
      r := table.EqvClassToMove(cls, lastState);
    }
  }
}
