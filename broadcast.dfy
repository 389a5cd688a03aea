/** The WebSocket side: every connected viewer and the messages it was sent. */
module Broadcast {
  import opened CharacterModel

  /** `{type: "init", data}` or `{type: "update", data}`. */
  datatype Message = Init(data: CharacterState) | Update(data: CharacterState)

  /** A viewer's log starts with its one `init` message; all later ones are updates. */
  predicate WellFormedLog(log: seq<Message>) {
    && |log| > 0
    && log[0].Init?
    && forall k :: 1 <= k < |log| ==> log[k].Update?
  }

  /** Appending an update keeps a log well formed. */
  lemma UpdateKeepsLog(log: seq<Message>, s: CharacterState)
    requires WellFormedLog(log)
    ensures WellFormedLog(log + [Update(s)])
  {
  }

  /** The connected viewers, each with the messages sent to it so far. */
  class Hub {
    var logs: seq<seq<Message>>

    ghost predicate Valid()
      reads this
    {
      forall i :: 0 <= i < |logs| ==> WellFormedLog(logs[i])
    }

    constructor ()
      ensures Valid() && logs == []
    {
      logs := [];
    }

    /** A viewer connects: it is sent `init` with the current record, to it alone. */
    method Connect(s: CharacterState) returns (viewer: nat)
      requires Valid()
      modifies this
      ensures Valid()
      ensures viewer == |old(logs)|
      ensures logs == old(logs) + [[Init(s)]]
    {
      viewer := |logs|;
      logs := logs + [[Init(s)]];
    }

    /** `broadcastCharacter`: every connected viewer is sent the same `update`. */
    method BroadcastState(s: CharacterState)
      requires Valid()
      modifies this
      ensures Valid()
      ensures |logs| == |old(logs)|
      ensures forall i :: 0 <= i < |logs| ==> logs[i] == old(logs[i]) + [Update(s)]
    {
      var i := 0;
      while i < |logs|
        invariant 0 <= i <= |logs| == |old(logs)|
        invariant forall j :: 0 <= j < i ==> logs[j] == old(logs[j]) + [Update(s)]
        invariant forall j :: i <= j < |logs| ==> logs[j] == old(logs[j])
        invariant Valid()
      {
        UpdateKeepsLog(logs[i], s);
        logs := logs[i := logs[i] + [Update(s)]];
        i := i + 1;
      }
    }
  }
}
