/** Turning a viewer command into a reply: the repetition note for the
    request, the streamed completion and the fallback replies. */
module Orchestrator {
  import opened CharacterModel
  import opened Repetition

  // ---------------- The repetition note ----------------

  /** The decimal numeral of `n`, as a template literal renders it. */
  function Decimal(n: nat): (r: string)
    ensures |r| > 0
    ensures forall i :: 0 <= i < |r| ==> '0' <= r[i] <= '9'
    ensures r[0] != '0' || n == 0
    decreases n
  {
    var d := ['0' + (n % 10) as char];
    if n < 10 then d else Decimal(n / 10) + d
  }

  /** Reads a decimal numeral back; the partner of `Decimal`. */
  function ParseDecimal(s: string): nat
    requires forall i :: 0 <= i < |s| ==> '0' <= s[i] <= '9'
    decreases |s|
  {
    if s == [] then 0
    else 10 * ParseDecimal(s[..|s| - 1]) + (s[|s| - 1] - '0') as int
  }

  lemma {:induction false} DecimalRoundTrip(n: nat)
    ensures ParseDecimal(Decimal(n)) == n
    decreases n
  {
    var r := Decimal(n);
    if n >= 10 {
      DecimalRoundTrip(n / 10);
      assert r[..|r| - 1] == Decimal(n / 10);
    }
  }

  const NotePrefix := "Add a funny twist because viewer repeated this command "
  const NoteSuffix := " time(s)."

  /** The instruction added to the request when the command was seen before. */
  function RepetitionNote(repeatCount: nat): (note: string)
    ensures note != [] <==> repeatCount > 0
  {
    if repeatCount > 0 then NotePrefix + Decimal(repeatCount) + NoteSuffix else ""
  }

  /** A non-empty note is the fixed prefix, the count's numeral without
      leading zeros, and the fixed suffix; the numeral reads back as the count. */
  lemma NoteNamesCount(repeatCount: nat)
    requires repeatCount > 0
    ensures var note := RepetitionNote(repeatCount);
      var digits := note[|NotePrefix|..|note| - |NoteSuffix|];
      && note == NotePrefix + digits + NoteSuffix
      && |digits| > 0 && digits[0] != '0'
      && (forall i :: 0 <= i < |digits| ==> '0' <= digits[i] <= '9')
      && ParseDecimal(digits) == repeatCount
  {
    var note := RepetitionNote(repeatCount);
    assert note[|NotePrefix|..|note| - |NoteSuffix|] == Decimal(repeatCount);
    DecimalRoundTrip(repeatCount);
  }

  // ---------------- The request ----------------

  /** The variable parts of the prompt sent to the text generator. */
  datatype Request = Request(name: string, note: string, viewerText: string, mood: Mood, level: int)

  // ---------------- The streamed completion ----------------

  /** One streamed chunk; its text is `chunk.choices[0]?.delta?.content`, which may be absent. */
  datatype Chunk = Chunk(content: Option<string>)

  /** What the generator did: the chunks it delivered, and whether the call
      failed (when the request was made or part-way through the stream). */
  datatype Completion = Completion(chunks: seq<Chunk>, failed: bool)

  /** `content || ""`. */
  function ChunkText(c: Chunk): string {
    match c.content
    case None => ""
    case Some(t) => t
  }

  /** The chunks' texts joined in arrival order. */
  function Concat(chunks: seq<Chunk>): string
    decreases |chunks|
  {
    if chunks == [] then "" else Concat(chunks[..|chunks| - 1]) + ChunkText(chunks[|chunks| - 1])
  }

  /** Joining distributes over splitting the stream anywhere. */
  lemma {:induction false} ConcatAppend(a: seq<Chunk>, b: seq<Chunk>)
    ensures Concat(a + b) == Concat(a) + Concat(b)
    decreases |b|
  {
    if b != [] {
      var n := |b|;
      assert (a + b)[..|a + b| - 1] == a + b[..n - 1];
      ConcatAppend(a, b[..n - 1]);
    } else {
      assert a + b == a;
    }
  }

  /** The joined text is empty exactly when every chunk's text is empty. */
  lemma {:induction false} ConcatEmptyIff(chunks: seq<Chunk>)
    ensures Concat(chunks) == "" <==> forall i :: 0 <= i < |chunks| ==> ChunkText(chunks[i]) == ""
    decreases |chunks|
  {
    if chunks != [] {
      var n := |chunks|;
      ConcatEmptyIff(chunks[..n - 1]);
      assert forall i :: 0 <= i < n - 1 ==> chunks[..n - 1][i] == chunks[i];
    }
  }

  /** The joined text has the length of all the chunks' texts together. */
  function TotalLength(chunks: seq<Chunk>): nat
    decreases |chunks|
  {
    if chunks == [] then 0 else |ChunkText(chunks[0])| + TotalLength(chunks[1..])
  }

  lemma {:induction false} ConcatLength(chunks: seq<Chunk>)
    ensures |Concat(chunks)| == TotalLength(chunks)
    decreases |chunks|
  {
    if chunks != [] {
      assert chunks == [chunks[0]] + chunks[1..];
      ConcatAppend([chunks[0]], chunks[1..]);
      assert [chunks[0]][..0] == [];
      ConcatLength(chunks[1..]);
    }
  }

  /** The `for await` loop: appends each chunk's text to `fullResponse`. */
  method Accumulate(chunks: seq<Chunk>) returns (fullResponse: string)
    ensures fullResponse == Concat(chunks)
  {
    fullResponse := "";
    var i := 0;
    while i < |chunks|
      invariant 0 <= i <= |chunks|
      invariant fullResponse == Concat(chunks[..i])
    {
      assert chunks[..i + 1][..i] == chunks[..i];
      fullResponse := fullResponse + ChunkText(chunks[i]);
      i := i + 1;
    }
    assert chunks[..i] == chunks;
  }

  // ---------------- Fallbacks ----------------

  const NoWordsReply := "Hmm… I have no words right now!"
  const TangledReply := "Oops! My circuits got tangled. \U{1F605}"

  /** The reply that the generator's outcome leads to. */
  function ReplyFor(c: Completion): (reply: string)
    ensures reply != ""
    ensures c.failed ==> reply == TangledReply
    ensures !c.failed && Concat(c.chunks) != "" ==> reply == Concat(c.chunks)
    ensures !c.failed && Concat(c.chunks) == "" ==> reply == NoWordsReply
  {
    if c.failed then TangledReply
    else if Concat(c.chunks) == "" then NoWordsReply
    else Concat(c.chunks)
  }

  /** A successful stream whose chunks carry some text is passed on whole; a
      failed one is discarded, whatever part of it arrived. */
  lemma ReplyOutcomes(c: Completion)
    ensures !c.failed && (exists i :: 0 <= i < |c.chunks| && ChunkText(c.chunks[i]) != "") ==>
              ReplyFor(c) == Concat(c.chunks) && |ReplyFor(c)| == TotalLength(c.chunks)
    ensures c.failed ==> ReplyFor(c) == ReplyFor(Completion([], true))
  {
    ConcatEmptyIff(c.chunks);
    ConcatLength(c.chunks);
  }

  /** `generateAIResponse`: records the command in the window, builds the
      request from the character's current state, and returns the reply. The
      generator is not called here: `completion` is what it did with `request`. */
  method GenerateReply(window: RepetitionWindow, state: CharacterState, prompt: string, completion: Completion)
    returns (request: Request, reply: string)
    requires window.Valid()
    modifies window
    ensures window.Valid()
    ensures window.commands == Recorded(old(window.commands), prompt)
    ensures request == Request(state.name, RepetitionNote(Occurrences(old(window.commands), prompt)),
                               prompt, state.mood, state.level)
    ensures reply == ReplyFor(completion)
    ensures reply != ""
  {
    var repeatCount := window.RecordAndCount(prompt);
    var note := RepetitionNote(repeatCount);
    request := Request(state.name, note, prompt, state.mood, state.level);
    var fullResponse := Accumulate(completion.chunks);
    if completion.failed {
      reply := TangledReply;
    } else if fullResponse == "" {
      reply := NoWordsReply;
    } else {
      reply := fullResponse;
    }
  }
}
