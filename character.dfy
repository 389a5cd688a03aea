/** The character record that the server owns and broadcasts. */
module CharacterModel {

  datatype Option<T> = None | Some(value: T)

  datatype Mood = Neutral | Happy | Angry | Curious | Excited

  /** A snapshot of the character: what an `init` or `update` message carries. */
  datatype CharacterState = CharacterState(name: string, level: int, mood: Mood, lastMessage: string)

  /** The record the process starts with. */
  const InitialState := CharacterState("Aiko", 1, Neutral, "Ready to play!")

  /** The single mutable character record; the handlers update its fields in place. */
  class Character {
    var name: string
    var level: int
    var mood: Mood
    var lastMessage: string

    constructor ()
      ensures State() == InitialState
    {
      name := "Aiko";
      level := 1;
      mood := Neutral;
      lastMessage := "Ready to play!";
    }

    /** The record's current fields as one value. */
    function State(): CharacterState
      reads this
    {
      CharacterState(name, level, mood, lastMessage)
    }
  }
}
