/** The list of blockers that the validators of a decision append to. */
module Blockers {
  class BlockerList {
    var entries: seq<string>

    constructor ()
      ensures Clear()
    {
      entries := [];
    }

    predicate Clear()
      reads this
    {
      entries == []
    }

    method Require(condition: bool, message: string)
      modifies this
      ensures entries == old(entries) + if condition then [] else [message]
      ensures Clear() <==> old(Clear()) && condition
    {
      if !condition {
        entries := entries + [message];
      }
    }
  }
}
