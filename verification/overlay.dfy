/**
 * The desktop overlay: it mirrors the live transcript broadcast by the
 * interview page, shows only the latest question and its streamed answer,
 * and sends the transcript (or typed text) back as a question on Enter.
 */
module Overlay {
  import opened Lists
  import opened Text

  // ------------------------------------------------------ live transcript

  /** What the overlay's transcript area shows: the placeholder "Waiting
      for transcription from web interface...", or a transcript update as
      the settled words and the words still shown as tentative. */
  datatype Display = Placeholder | Display(settled: string, tentative: string)

  /**
   * `updateLiveTranscript`'s split of an interim text on spaces: all words
   * but the last three are settled, the last three (or all, when there are
   * no more) are tentative. A final text is shown settled as a whole.
   */
  function ShowTranscript(text: string, isFinal: bool): (r: Display)
    ensures r.Display?
    ensures isFinal ==> r == Display(text, "")
    ensures !isFinal && |Split(text, ' ')| <= 3 ==> r == Display("", text)
    ensures !isFinal && |Split(text, ' ')| > 3 ==> r.settled + " " + r.tentative == text
    ensures !isFinal ==> |Split(r.tentative, ' ')| == Min(3, |Split(text, ' ')|)
  {
    if isFinal then Display(text, "")
    else
      var parts := Split(text, ' ');
      var k := if |parts| > 3 then |parts| - 3 else 0;
      TailWords(text);
      Display(Join(parts[..k], ' '), Join(parts[k..], ' '))
  }

  /** The last three words (or all) joined read back as themselves, and the
      words before them, one space, and those words give the text back. */
  lemma TailWords(text: string)
    ensures var parts := Split(text, ' '); var k := if |parts| > 3 then |parts| - 3 else 0;
      && Split(Join(parts[k..], ' '), ' ') == parts[k..]
      && (k == 0 ==> Join(parts[k..], ' ') == text)
      && (k > 0 ==> Join(parts[..k], ' ') + " " + Join(parts[k..], ' ') == text)
  {
    var parts := Split(text, ' ');
    var k := if |parts| > 3 then |parts| - 3 else 0;
    JoinSplit(text, ' ');
    SplitPiecesFree(text, ' ');
    SplitJoin(parts[k..], ' ');
    if k > 0 {
      assert parts == parts[..k] + parts[k..];
      JoinAppend(parts[..k], parts[k..], ' ');
    } else {
      assert parts[k..] == parts;
    }
  }

  /** Whatever the split, the overlay shows the words of the text in their
      order: the settled part, one space, then the tentative part read back
      give the text, preceded by a space when nothing is settled. */
  lemma ShownReadsBack(text: string)
    ensures var r := ShowTranscript(text, false);
      r.settled + " " + r.tentative == if |Split(text, ' ')| > 3 then text else " " + text
  {
  }

  // --------------------------------------------------------- conversation

  datatype Kind = SystemMessage | QuestionMessage | AnswerMessage

  /** One block of the conversation panel; `current` marks the answer still
      streaming (the `current-answer` id), `markdown` one rendered as
      markdown. */
  datatype Entry = Entry(kind: Kind, timestamp: string, text: string, current: bool, markdown: bool)

  type Conversation = seq<Entry>

  /** Only a streaming, unrendered answer is ever marked current, and at
      most one is. */
  predicate WellMarked(c: Conversation)
  {
    && (forall i :: 0 <= i < |c| && c[i].current ==> c[i].kind == AnswerMessage && !c[i].markdown)
    && (forall i, j :: 0 <= i < |c| && 0 <= j < |c| && c[i].current && c[j].current ==> i == j)
  }

  /** `getElementById('current-answer')`: the first entry marked current. */
  function FindCurrent(c: Conversation): (r: Option<nat>)
    ensures r.Some? ==> (r.value < |c| && c[r.value].current
      && forall j :: 0 <= j < r.value ==> !c[j].current)
    ensures r.None? ==> forall j :: 0 <= j < |c| ==> !c[j].current
  {
    if |c| == 0 then None
    else if c[0].current then Some(0)
    else
      var r := FindCurrent(c[1..]);
      assert forall j :: 1 <= j < |c| ==> c[j] == c[1..][j - 1];
      if r.Some? then Some(r.value + 1) else None
  }

  /** `querySelector('.system-message')`: the first system message, as a
      sequence of zero or one entries. */
  function FirstSystem(c: Conversation): (r: seq<Entry>)
    ensures |r| <= 1
    ensures |r| == 1 ==> r[0] in c && r[0].kind == SystemMessage
    ensures |r| == 0 <==> forall j :: 0 <= j < |c| ==> c[j].kind != SystemMessage
  {
    if |c| == 0 then []
    else if c[0].kind == SystemMessage then [c[0]]
    else
      var r := FirstSystem(c[1..]);
      assert forall j :: 1 <= j < |c| ==> c[j] == c[1..][j - 1];
      r
  }

  /**
   * `addMessageToConversation` for a question or an answer: a question
   * first clears the panel down to its system message; the new block is
   * appended, and an answer is marked current.
   */
  function AddMessage(c: Conversation, kind: Kind, text: string, timestamp: string): (r: Conversation)
    requires kind != SystemMessage
    ensures |r| >= 1 && r[|r| - 1] == Entry(kind, timestamp, text, kind == AnswerMessage, false)
    ensures kind == QuestionMessage ==> r[..|r| - 1] == FirstSystem(c)
    ensures kind == AnswerMessage ==> r[..|r| - 1] == c
  {
    var kept := if kind == QuestionMessage then FirstSystem(c) else c;
    kept + [Entry(kind, timestamp, text, kind == AnswerMessage, false)]
  }

  /** A question leaves at most the system message and itself, and nothing
      marked current. */
  lemma QuestionClears(c: Conversation, text: string, timestamp: string)
    ensures var r := AddMessage(c, QuestionMessage, text, timestamp);
      && |r| <= 2
      && r[|r| - 1].kind == QuestionMessage
      && (|r| == 2 ==> r[0].kind == SystemMessage)
      && (WellMarked(c) ==> WellMarked(r) && FindCurrent(r).None?)
  {
    var r := AddMessage(c, QuestionMessage, text, timestamp);
    assert r == FirstSystem(c) + [r[|r| - 1]];
    if |r| == 2 {
      assert r[0] == FirstSystem(c)[0];
      assert r[0] in c;
    }
  }

  /**
   * `updateOrAddAnswer`: a chunk extends the current answer, or starts a
   * new current answer when there is none.
   */
  function AddAnswerChunk(c: Conversation, text: string, timestamp: string): (r: Conversation)
    ensures FindCurrent(c).Some? ==> (
      var i := FindCurrent(c).value;
      && |r| == |c|
      && r[i] == c[i].(text := c[i].text + text)
      && forall j :: 0 <= j < |c| && j != i ==> r[j] == c[j])
    ensures FindCurrent(c).None? ==> r == c + [Entry(AnswerMessage, timestamp, text, true, false)]
    ensures WellMarked(c) ==> WellMarked(r)
    ensures FindCurrent(r).Some?
  {
    match FindCurrent(c)
    case None => AddMessage(c, AnswerMessage, text, timestamp)
    case Some(i) => c[i := c[i].(text := c[i].text + text)]
  }

  /**
   * `completeCurrentAnswer`: the current answer is rendered as markdown
   * and loses its mark; without one nothing changes.
   */
  function CompleteAnswer(c: Conversation): (r: Conversation)
    ensures |r| == |c|
    ensures FindCurrent(c).Some? ==>
      var i := FindCurrent(c).value;
      && r[i] == c[i].(current := false, markdown := true)
      && forall j :: 0 <= j < |c| && j != i ==> r[j] == c[j]
    ensures FindCurrent(c).None? ==> r == c
    ensures WellMarked(c) ==> WellMarked(r) && FindCurrent(r).None?
  {
    match FindCurrent(c)
    case None => c
    case Some(i) => c[i := c[i].(current := false, markdown := true)]
  }

  /** Completing twice is completing once. */
  lemma CompleteIdempotent(c: Conversation)
    requires WellMarked(c)
    ensures CompleteAnswer(CompleteAnswer(c)) == CompleteAnswer(c)
  {
  }

  /** A streamed piece of an answer. */
  datatype Chunk = Chunk(text: string, timestamp: string)

  function AddChunks(c: Conversation, chunks: seq<Chunk>): Conversation
    decreases |chunks|
  {
    if |chunks| == 0 then c else AddChunks(AddAnswerChunk(c, chunks[0].text, chunks[0].timestamp), chunks[1..])
  }

  function Concat(chunks: seq<Chunk>): string
  {
    if |chunks| == 0 then "" else chunks[0].text + Concat(chunks[1..])
  }

  /** Chunks streamed after a question build one answer, stamped with the
      first chunk's time, whose text is the chunks in order; the question
      and the system message stay as they were. */
  lemma {:induction false} StreamedAnswer(c: Conversation, question: string, timestamp: string, chunks: seq<Chunk>)
    requires WellMarked(c) && |chunks| > 0
    ensures var q := AddMessage(c, QuestionMessage, question, timestamp);
      var r := AddChunks(q, chunks);
      && |r| == |q| + 1
      && r[..|q|] == q
      && r[|q|] == Entry(AnswerMessage, chunks[0].timestamp, Concat(chunks), true, false)
  {
    var q := AddMessage(c, QuestionMessage, question, timestamp);
    QuestionClears(c, question, timestamp);
    var q1 := AddAnswerChunk(q, chunks[0].text, chunks[0].timestamp);
    assert q1 == q + [Entry(AnswerMessage, chunks[0].timestamp, chunks[0].text, true, false)];
    ChunksExtend(q, q1[|q|], chunks[1..]);
    assert q1 == q + [q1[|q|]];
    assert Concat(chunks) == chunks[0].text + Concat(chunks[1..]);
  }

  /** Further chunks only extend the current answer `e` at the end. */
  lemma {:induction false} ChunksExtend(prefix: Conversation, e: Entry, chunks: seq<Chunk>)
    requires FindCurrent(prefix).None? && e.current
    ensures AddChunks(prefix + [e], chunks) == prefix + [e.(text := e.text + Concat(chunks))]
    decreases |chunks|
  {
    if |chunks| > 0 {
      var c := prefix + [e];
      FindAfterPrefix(prefix, e);
      var e1 := e.(text := e.text + chunks[0].text);
      assert c[|prefix| := e1] == prefix + [e1];
      assert AddChunks(c, chunks) == AddChunks(prefix + [e1], chunks[1..]);
      ChunksExtend(prefix, e1, chunks[1..]);
      assert e1.text + Concat(chunks[1..]) == e.text + Concat(chunks);
    } else {
      assert e.text + Concat(chunks) == e.text;
    }
  }

  /** With nothing current before it, a current entry appended last is found. */
  lemma FindAfterPrefix(prefix: Conversation, e: Entry)
    requires FindCurrent(prefix).None? && e.current
    ensures FindCurrent(prefix + [e]) == Some(|prefix|)
  {
    var c := prefix + [e];
    var r := FindCurrent(c);
    assert c[|prefix|].current;
    assert forall j :: 0 <= j < |prefix| ==> c[j] == prefix[j];
  }

  // --------------------------------------------------------------- state

  /** The overlay window: the mirrored transcript and how it is shown, the
      input field, the conversation panel and whether the relay socket is
      open. */
  datatype Window = Window(transcript: string, shown: Display, input: string,
                           conversation: Conversation, socketOpen: bool)

  /** The relay messages the overlay understands. */
  datatype Incoming =
    | Initialization
    | LiveTranscriptUpdate(text: string, isFinal: bool)
    | Question(text: string, timestamp: string)
    | AnswerChunk(text: string, timestamp: string)
    | AnswerComplete
    | Unknown

  /** The socket's message handler. */
  function Handle(w: Window, m: Incoming): (r: Window)
    ensures r.input == w.input && r.socketOpen == w.socketOpen
    ensures m.LiveTranscriptUpdate? ==>
      r.transcript == m.text && r.shown == ShowTranscript(m.text, m.isFinal) && r.conversation == w.conversation
    ensures !m.LiveTranscriptUpdate? ==> r.transcript == w.transcript && r.shown == w.shown
    ensures m.Initialization? || m.Unknown? ==> r == w
    ensures WellMarked(w.conversation) ==> WellMarked(r.conversation)
  {
    match m
    case Initialization => w
    case LiveTranscriptUpdate(text, isFinal) => w.(transcript := text, shown := ShowTranscript(text, isFinal))
    case Question(text, timestamp) =>
      QuestionClears(w.conversation, text, timestamp);
      w.(conversation := AddMessage(w.conversation, QuestionMessage, text, timestamp))
    case AnswerChunk(text, timestamp) => w.(conversation := AddAnswerChunk(w.conversation, text, timestamp))
    case AnswerComplete => w.(conversation := CompleteAnswer(w.conversation))
    case Unknown => w
  }

  // ---------------------------------------------------------------- send

  /** The `transcription` message sent to the server. */
  datatype Transcription = Transcription(text: string, model: string)

  /** `sendTranscriptionToServer`: sent with the default model only while
      the socket is open. */
  function SendTranscription(socketOpen: bool, text: string): (r: Option<Transcription>)
    ensures r.Some? <==> socketOpen
    ensures r.Some? ==> r.value.text == text && r.value.model == "gpt-4o"
  {
    if socketOpen then Some(Transcription(text, "gpt-4o")) else None
  }

  datatype Entered = Entered(window: Window, sent: Option<Transcription>)

  /**
   * The Enter key: the trimmed typed text, or else the mirrored transcript,
   * is sent; after that the input and the transcript are cleared. With
   * nothing to send nothing happens. The message goes out only while the
   * socket is open, but the fields are cleared either way.
   */
  function PressEnter(w: Window): (r: Entered)
    ensures r.sent.Some? <==> w.socketOpen && (Trim(w.input) != "" || w.transcript != "")
    ensures r.sent.Some? && Trim(w.input) != "" ==> r.sent.value.text == Trim(w.input)
    ensures r.sent.Some? && Trim(w.input) == "" ==> r.sent.value.text == w.transcript
    ensures Trim(w.input) != "" || w.transcript != "" ==>
      r.window == w.(input := "", transcript := "", shown := Placeholder)
    ensures Trim(w.input) == "" && w.transcript == "" ==> r.window == w
  {
    var manual := Trim(w.input);
    var text := if manual != "" then manual else w.transcript;
    if text != "" then
      Entered(w.(input := "", transcript := "", shown := Placeholder), SendTranscription(w.socketOpen, text))
    else Entered(w, None)
  }

  /** Enter twice in a row sends at most once. */
  lemma EnterThenEnter(w: Window)
    ensures PressEnter(PressEnter(w).window).sent.Some? ==> PressEnter(w).sent.None?
  {
    TrimEmptyIff("");
  }
}
