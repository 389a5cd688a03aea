/** How gifts and chat comments change the character's level and mood. */
module MoodPolicy {
  import opened Text
  import opened CharacterModel

  /** A gift event as the live-stream library delivers it; `repeatCount` may be absent. */
  datatype Gift = Gift(giftName: string, repeatCount: Option<int>, userId: string)

  /** A chat event: the viewer's comment and who wrote it. */
  datatype Chat = Chat(comment: string, userId: string)

  function Max(a: int, b: int): int {
    if a < b then b else a
  }

  // ---------------- Gifts ----------------

  /** The level gain of one gift, `repeatCount || 1`: a missing or zero count
      counts as one, every other count is taken as it is. */
  function GiftIncrement(repeatCount: Option<int>): (d: int)
    ensures repeatCount == None ==> d == 1
    ensures repeatCount.Some? && repeatCount.value >= 0 ==> d == Max(repeatCount.value, 1)
    ensures repeatCount.Some? && repeatCount.value != 0 ==> d == repeatCount.value
  {
    match repeatCount
    case None => 1
    case Some(n) => if n == 0 then 1 else n
  }

  /** The thank-you line a gift leaves in `lastMessage`. */
  function ThankYou(userId: string, giftName: string): string {
    "Thank you " + userId + " for sending " + giftName + "! \U{1F389}"
  }

  /** The record after a gift, before it is broadcast. */
  function AfterGift(s: CharacterState, g: Gift): CharacterState {
    CharacterState(s.name, s.level + GiftIncrement(g.repeatCount), Happy, ThankYou(g.userId, g.giftName))
  }

  /** A gift keeps the name, makes the character happy, raises the level by at
      least one (for a non-negative count) and thanks the giver by name for
      the gift by name. */
  lemma GiftOutcome(s: CharacterState, g: Gift)
    requires g.repeatCount.Some? ==> g.repeatCount.value >= 0
    ensures AfterGift(s, g).name == s.name
    ensures AfterGift(s, g).mood == Happy
    ensures AfterGift(s, g).level >= s.level + 1
    ensures Contains(AfterGift(s, g).lastMessage, g.userId)
    ensures Contains(AfterGift(s, g).lastMessage, g.giftName)
  {
    var m := AfterGift(s, g).lastMessage;
    var prefix := "Thank you ";
    var middle := " for sending ";
    assert m == prefix + g.userId + middle + g.giftName + "! \U{1F389}";
    var j := |prefix|;
    assert m[j..j + |g.userId|] == g.userId;
    assert OccursAt(m, g.userId, j);
    ContainsIff(m, g.userId);
    var k := |prefix| + |g.userId| + |middle|;
    assert m[k..k + |g.giftName|] == g.giftName;
    assert OccursAt(m, g.giftName, k);
    ContainsIff(m, g.giftName);
  }

  // ---------------- Chat ----------------

  /** What a chat comment does to the record: the mood to set and the level gain. */
  datatype Reaction = Reaction(mood: Mood, levelDelta: nat)

  /** The rule chain over an already lower-cased comment, first match wins. */
  function ChatReaction(message: string): (r: Reaction)
    ensures r.levelDelta <= 1
    ensures r.levelDelta == 1 <==> r.mood == Happy
    ensures r.mood != Neutral
  {
    if Contains(message, "gift") then Reaction(Happy, 1)
    else if Contains(message, "angry") then Reaction(Angry, 0)
    else if Contains(message, "yay") || Contains(message, "wow") then Reaction(Excited, 0)
    else Reaction(Curious, 0)
  }

  /** The record after the mood rules ran on the lower-cased `message`;
      `lastMessage` is set later, from the generated reply. */
  function AfterChatMood(s: CharacterState, message: string): CharacterState {
    var r := ChatReaction(message);
    s.(level := s.level + r.levelDelta, mood := r.mood)
  }

  /** The record once a chat comment has been handled and `reply` has arrived. */
  function AfterChat(s: CharacterState, comment: string, reply: string): CharacterState {
    AfterChatMood(s, ToLower(comment)).(lastMessage := reply)
  }

  /** In chat handling the level moves only for a comment that includes
      "gift", and then by exactly one; the mood is always overwritten. */
  lemma ChatLevelOnlyForGift(s: CharacterState, comment: string, reply: string)
    ensures var t := AfterChat(s, comment, reply);
      && t.name == s.name
      && t.lastMessage == reply
      && t.mood != Neutral
      && (Contains(ToLower(comment), "gift") ==> t.level == s.level + 1 && t.mood == Happy)
      && (!Contains(ToLower(comment), "gift") ==> t.level == s.level && t.mood != Happy)
  {
  }

  // ---------------- The rule chain as a table ----------------

  /** One content rule: when the comment includes `keyword`, react with `reaction`. */
  datatype Rule = Rule(keyword: string, reaction: Reaction)

  /** The chat rules in priority order, and what happens when none applies. */
  const ChatRules: seq<Rule> := [
    Rule("gift", Reaction(Happy, 1)),
    Rule("angry", Reaction(Angry, 0)),
    Rule("yay", Reaction(Excited, 0)),
    Rule("wow", Reaction(Excited, 0))
  ]
  const DefaultReaction := Reaction(Curious, 0)

  /** A generic first-match-wins evaluation of a rule table. */
  function FirstMatch(rules: seq<Rule>, message: string, default: Reaction): Reaction {
    if rules == [] then default
    else if Contains(message, rules[0].keyword) then rules[0].reaction
    else FirstMatch(rules[1..], message, default)
  }

  ghost predicate Matches(rules: seq<Rule>, message: string, k: int) {
    0 <= k < |rules| && Contains(message, rules[k].keyword)
  }

  /** Rule `k` applies and no earlier rule does. */
  ghost predicate IsFirstMatch(rules: seq<Rule>, message: string, k: int) {
    Matches(rules, message, k) && forall j :: 0 <= j < k ==> !Matches(rules, message, j)
  }

  /** First match wins: the reaction is that of the first applicable rule, and
      the default when no rule applies. */
  lemma {:induction false} FirstMatchWins(rules: seq<Rule>, message: string, default: Reaction)
    ensures (forall k :: 0 <= k < |rules| ==> !Matches(rules, message, k)) ==>
              FirstMatch(rules, message, default) == default
    ensures forall k :: IsFirstMatch(rules, message, k) ==>
              FirstMatch(rules, message, default) == rules[k].reaction
  {
    if rules == [] {
    } else if Contains(message, rules[0].keyword) {
      assert Matches(rules, message, 0);
      forall k | IsFirstMatch(rules, message, k)
        ensures k == 0
      {
      }
    } else {
      FirstMatchWins(rules[1..], message, default);
      assert !Matches(rules, message, 0);
      forall k | 0 <= k < |rules| - 1
        ensures Matches(rules[1..], message, k) == Matches(rules, message, k + 1)
      {
      }
      forall k | IsFirstMatch(rules, message, k)
        ensures IsFirstMatch(rules[1..], message, k - 1)
      {
        forall j | 0 <= j < k - 1
          ensures !Matches(rules[1..], message, j)
        {
          assert !Matches(rules, message, j + 1);
        }
      }
    }
  }

  /** The handler's if-else chain is exactly the rule table evaluated first-match-wins. */
  lemma ChatReactionFollowsRules(message: string)
    ensures ChatReaction(message) == FirstMatch(ChatRules, message, DefaultReaction)
  {
    var d := DefaultReaction;
    var r0 := ChatRules;
    var r1 := [Rule("angry", Reaction(Angry, 0)), Rule("yay", Reaction(Excited, 0)), Rule("wow", Reaction(Excited, 0))];
    var r2 := [Rule("yay", Reaction(Excited, 0)), Rule("wow", Reaction(Excited, 0))];
    var r3 := [Rule("wow", Reaction(Excited, 0))];
    assert r0[1..] == r1 && r1[1..] == r2 && r2[1..] == r3 && r3[1..] == [];
    assert FirstMatch(r3, message, d) == if Contains(message, "wow") then Reaction(Excited, 0) else d;
    assert FirstMatch(r2, message, d) == if Contains(message, "yay") then Reaction(Excited, 0) else FirstMatch(r3, message, d);
    assert FirstMatch(r1, message, d) == if Contains(message, "angry") then Reaction(Angry, 0) else FirstMatch(r2, message, d);
  }

  // ---------------- Sequences of events ----------------

  /** One handled event; a chat carries the reply that was generated for it. */
  datatype Event = GiftEvent(gift: Gift) | ChatEvent(chat: Chat, reply: string)

  function AfterEvent(s: CharacterState, e: Event): CharacterState {
    match e
    case GiftEvent(g) => AfterGift(s, g)
    case ChatEvent(c, reply) => AfterChat(s, c.comment, reply)
  }

  /** The record after handling `es` one after another. */
  function AfterEvents(s: CharacterState, es: seq<Event>): CharacterState
    decreases |es|
  {
    if es == [] then s else AfterEvents(AfterEvent(s, es[0]), es[1..])
  }

  /** The level gain of one event. */
  function LevelGain(e: Event): int {
    match e
    case GiftEvent(g) => GiftIncrement(g.repeatCount)
    case ChatEvent(c, _) => ChatReaction(ToLower(c.comment)).levelDelta
  }

  function TotalGain(es: seq<Event>): int
    decreases |es|
  {
    if es == [] then 0 else LevelGain(es[0]) + TotalGain(es[1..])
  }

  /** After any run of events the level is the initial level plus the sum of
      the events' gains, and the name has not changed. */
  lemma {:induction false} LevelAddsUp(s: CharacterState, es: seq<Event>)
    ensures AfterEvents(s, es).level == s.level + TotalGain(es)
    ensures AfterEvents(s, es).name == s.name
    decreases |es|
  {
    if es != [] {
      LevelAddsUp(AfterEvent(s, es[0]), es[1..]);
    }
  }

  predicate NonNegativeCounts(es: seq<Event>) {
    forall k :: 0 <= k < |es| && es[k].GiftEvent? && es[k].gift.repeatCount.Some? ==>
      es[k].gift.repeatCount.value >= 0
  }

  function GiftCount(es: seq<Event>): nat
    decreases |es|
  {
    if es == [] then 0 else (if es[0].GiftEvent? then 1 else 0) + GiftCount(es[1..])
  }

  /** With non-negative gift counts the level never goes down: every gift
      adds at least one and a chat adds zero or one. */
  lemma {:induction false} LevelNeverDecreases(s: CharacterState, es: seq<Event>)
    requires NonNegativeCounts(es)
    ensures AfterEvents(s, es).level >= s.level + GiftCount(es)
    decreases |es|
  {
    if es != [] {
      assert NonNegativeCounts(es[1..]) by {
        forall k | 0 <= k < |es| - 1 ensures es[1..][k] == es[k + 1] { }
      }
      LevelNeverDecreases(AfterEvent(s, es[0]), es[1..]);
    }
  }

  /** Starting from the initial record, the level stays at least one. */
  lemma LevelStaysPositive(es: seq<Event>)
    requires NonNegativeCounts(es)
    ensures AfterEvents(InitialState, es).level >= 1
  {
    LevelNeverDecreases(InitialState, es);
  }

  function GiftEvents(gs: seq<Gift>): (es: seq<Event>)
    ensures |es| == |gs|
    ensures forall k :: 0 <= k < |gs| ==> es[k] == GiftEvent(gs[k])
  {
    seq(|gs|, k requires 0 <= k < |gs| => GiftEvent(gs[k]))
  }

  function SumOfMaxCounts(gs: seq<Gift>): int
    requires forall k :: 0 <= k < |gs| ==> gs[k].repeatCount.Some?
    decreases |gs|
  {
    if gs == [] then 0 else Max(gs[0].repeatCount.value, 1) + SumOfMaxCounts(gs[1..])
  }

  /** A run of gifts with non-negative counts raises the level by the sum of
      each `max(repeatCount, 1)`. */
  lemma {:induction false} GiftsAddUp(s: CharacterState, gs: seq<Gift>)
    requires forall k :: 0 <= k < |gs| ==> gs[k].repeatCount.Some? && gs[k].repeatCount.value >= 0
    ensures AfterEvents(s, GiftEvents(gs)).level == s.level + SumOfMaxCounts(gs)
    decreases |gs|
  {
    LevelAddsUp(s, GiftEvents(gs));
    TotalGainOfGifts(gs);
  }

  lemma {:induction false} TotalGainOfGifts(gs: seq<Gift>)
    requires forall k :: 0 <= k < |gs| ==> gs[k].repeatCount.Some? && gs[k].repeatCount.value >= 0
    ensures TotalGain(GiftEvents(gs)) == SumOfMaxCounts(gs)
    decreases |gs|
  {
    if gs != [] {
      assert GiftEvents(gs)[1..] == GiftEvents(gs[1..]);
      TotalGainOfGifts(gs[1..]);
    }
  }
}

/** Worked examples: a gift of three roses, and mixed-case chat comments showing the rules' priority. */
module PolicyScenarios {
  import opened Text
  import opened CharacterModel
  import opened MoodPolicy

  lemma RoseGiftScenario()
    ensures AfterGift(InitialState, Gift("Rose", Some(3), "alice"))
         == CharacterState("Aiko", 4, Happy, "Thank you alice for sending Rose! \U{1F389}")
  {
  }

  lemma GiftScenario(s: CharacterState)
    ensures AfterChat(s, "Gift please", "r") == s.(level := s.level + 1, mood := Happy, lastMessage := "r")
  {
    var m := ToLower("Gift please");
    assert m[..4] == "gift";
  }

  /** A keyword with a character that the text lacks is not included in it. */
  lemma MissingCharNotContained(s: string, sub: string, k: nat)
    requires k < |sub| && sub[k] !in s
    ensures !Contains(s, sub)
  {
    ContainsIff(s, sub);
    forall i | 0 <= i && i + |sub| <= |s|
      ensures !OccursAt(s, sub, i)
    {
      assert s[i..i + |sub|][k] == s[i + k];
    }
  }

  lemma AngryIncluded(m: string)
    requires m == "this is angry"
    ensures Contains(m, "angry") && !Contains(m, "gift")
  {
    MissingCharNotContained(m, "gift", 2);
    assert m[8..13] == "angry";
    assert OccursAt(m, "angry", 8);
    ContainsIff(m, "angry");
  }

  lemma AngryScenario(s: CharacterState)
    ensures AfterChat(s, "This is ANGRY", "r") == s.(mood := Angry, lastMessage := "r")
  {
    var m := ToLower("This is ANGRY");
    assert m == "this is angry";
    AngryIncluded(m);
  }

  lemma WowIncluded(m: string)
    requires m == "wow nice"
    ensures Contains(m, "wow") && !Contains(m, "gift") && !Contains(m, "angry")
  {
    MissingCharNotContained(m, "gift", 0);
    MissingCharNotContained(m, "angry", 0);
    assert m[0..3] == "wow";
    assert OccursAt(m, "wow", 0);
    ContainsIff(m, "wow");
  }

  lemma WowScenario(s: CharacterState)
    ensures AfterChat(s, "WOW nice", "r") == s.(mood := Excited, lastMessage := "r")
  {
    var m := ToLower("WOW nice");
    assert m == "wow nice";
    WowIncluded(m);
  }
}
