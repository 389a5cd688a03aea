/** The server's event handlers over its three pieces of state: the
    character record, the window of recent commands and the connected viewers. */
module Server {
  import opened Text
  import opened CharacterModel
  import opened MoodPolicy
  import opened Repetition
  import opened Orchestrator
  import opened Broadcast

  class Server {
    const character: Character
    const window: RepetitionWindow
    const hub: Hub

    ghost predicate Valid()
      reads this, window, hub
    {
      window.Valid() && hub.Valid()
    }

    /** Process start: the initial record, an empty window, no viewers. */
    constructor ()
      ensures Valid()
      ensures character.State() == InitialState
      ensures window.commands == [] && hub.logs == []
      ensures fresh(character) && fresh(window) && fresh(hub)
    {
      character := new Character();
      window := new RepetitionWindow();
      hub := new Hub();
    }

    /** The `GIFT` handler: level up by the gift's count, turn happy, thank
        the giver, then broadcast. */
    method OnGift(g: Gift)
      requires Valid()
      modifies character, hub
      ensures Valid()
      ensures character.State() == AfterGift(old(character.State()), g)
      ensures |hub.logs| == |old(hub.logs)|
      ensures forall i :: 0 <= i < |hub.logs| ==> hub.logs[i] == old(hub.logs[i]) + [Update(character.State())]
    {
      character.level := character.level + GiftIncrement(g.repeatCount);
      character.mood := Happy;
      character.lastMessage := ThankYou(g.userId, g.giftName);
      hub.BroadcastState(character.State());
    }

    /** The `CHAT` handler: lower-case the comment, apply the mood rules,
        obtain a reply (recording the command in the window), store the reply,
        then broadcast. `completion` is what the generator did with `request`. */
    method OnChat(c: Chat, completion: Completion) returns (request: Request)
      requires Valid()
      modifies character, window, hub
      ensures Valid()
      ensures character.State() == AfterChat(old(character.State()), c.comment, ReplyFor(completion))
      ensures window.commands == Recorded(old(window.commands), ToLower(c.comment))
      ensures request == Request(
                old(character.name),
                RepetitionNote(Occurrences(old(window.commands), ToLower(c.comment))),
                ToLower(c.comment),
                character.mood,
                character.level)
      ensures |hub.logs| == |old(hub.logs)|
      ensures forall i :: 0 <= i < |hub.logs| ==> hub.logs[i] == old(hub.logs[i]) + [Update(character.State())]
    {
      var userMessage := ToLower(c.comment);
      if Contains(userMessage, "gift") {
        character.level := character.level + 1;
        character.mood := Happy;
      } else if Contains(userMessage, "angry") {
        character.mood := Angry;
      } else if Contains(userMessage, "yay") || Contains(userMessage, "wow") {
        character.mood := Excited;
      } else {
        character.mood := Curious;
      }
      var reply;
      request, reply := GenerateReply(window, character.State(), userMessage, completion);
      character.lastMessage := reply;
      hub.BroadcastState(character.State());
    }

    /** The WebSocket `connection` handler: the new viewer is sent `init`
        with the current record; nothing else changes. */
    method OnConnection() returns (viewer: nat)
      requires Valid()
      modifies hub
      ensures Valid()
      ensures viewer == |old(hub.logs)|
      ensures hub.logs == old(hub.logs) + [[Init(character.State())]]
    {
      viewer := hub.Connect(character.State());
    }
  }

  /** A scenario from start-up: a viewer connects, a gift arrives, then a chat.
      The viewer sees `init` with the initial record first, then one update per event. */
  method GiftThenChat(g: Gift, c: Chat, completion: Completion) returns (log: seq<Message>)
    ensures |log| == 3
    ensures log[0] == Init(InitialState)
    ensures log[1] == Update(AfterGift(InitialState, g))
    ensures log[2] == Update(AfterChat(AfterGift(InitialState, g), c.comment, ReplyFor(completion)))
    ensures log[2].data.lastMessage != ""
  {
    var server := new Server();
    var viewer := server.OnConnection();
    server.OnGift(g);
    var _ := server.OnChat(c, completion);
    log := server.hub.logs[viewer];
  }
}
