/**
 * The interview page's side of live transcription: the speaker labels of
 * diarized audio, the aggregation of streaming recognition results into the
 * running transcript and its broadcast, the Enter key that submits the
 * transcript as a question, the streaming parameters, the session timer and
 * the choice of a recording format.
 */
module LiveTranscript {
  import opened Lists
  import opened Text

  // ------------------------------------------------------------- speakers

  /** The two parties of a dual-audio interview. */
  datatype Label = Interviewer | You

  function LabelName(l: Label): string
  {
    match l
    case Interviewer => "Interviewer"
    case You => "You"
  }

  function LabelClass(l: Label): string
  {
    match l
    case Interviewer => "speaker-interviewer"
    case You => "speaker-you"
  }

  /** Labels assigned so far, by speaker id. */
  type SpeakerMap = map<int, Label>

  /** At most one speaker is the interviewer, and one is as soon as any
      speaker has been seen. */
  predicate OneInterviewer(m: SpeakerMap)
  {
    && (forall a, b :: a in m && b in m && m[a] == Interviewer && m[b] == Interviewer ==> a == b)
    && (|m| > 0 ==> exists a :: a in m && m[a] == Interviewer)
  }

  /** The result of `getSpeakerLabel`: the updated map and the label. */
  datatype Labelled = Labelled(speakers: SpeakerMap, name: Label)

  /**
   * `getSpeakerLabel`: a known speaker keeps its label; a new one is the
   * interviewer when no speaker was seen before and "You" otherwise.
   */
  function SpeakerLabel(m: SpeakerMap, id: int): (r: Labelled)
    ensures id in r.speakers && r.speakers[id] == r.name
    ensures r.speakers.Keys == m.Keys + {id}
    ensures forall other :: other in m ==> r.speakers[other] == m[other]
    ensures OneInterviewer(m) ==> OneInterviewer(r.speakers)
  {
    if id in m then Labelled(m, m[id])
    else
      var given := if |m| == 0 then Interviewer else You;
      var m' := m[id := given];
      assert id in m' && m'[id] == given;
      Labelled(m', given)
  }

  /** The map after labelling the speakers `ids` in order. */
  function LabelAll(m: SpeakerMap, ids: seq<int>): SpeakerMap
    decreases |ids|
  {
    if |ids| == 0 then m else LabelAll(SpeakerLabel(m, ids[0]).speakers, ids[1..])
  }

  /** Starting from no speakers, the first speaker heard is the interviewer
      and every other speaker heard is "You". */
  lemma {:induction false} FirstHeardIsInterviewer(ids: seq<int>)
    requires |ids| > 0
    ensures var m := LabelAll(map[], ids);
      && m.Keys == (set id | id in ids)
      && forall id :: id in m ==> (m[id] == Interviewer <==> id == ids[0])
  {
    var m0 := SpeakerLabel(map[], ids[0]).speakers;
    assert m0 == map[ids[0] := Interviewer];
    LabelAllKeeps(m0, ids[1..]);
    HeardCons(ids);
  }

  /** Labelling more speakers keeps every existing label, adds exactly the
      new ids, and labels every new id "You" once a speaker is known. */
  lemma {:induction false} LabelAllKeeps(m: SpeakerMap, ids: seq<int>)
    requires |m| > 0
    ensures var m' := LabelAll(m, ids);
      && m'.Keys == m.Keys + (set id | id in ids)
      && (forall id :: id in m ==> m'[id] == m[id])
      && (forall id :: id in m' && id !in m ==> m'[id] == You)
    decreases |ids|
  {
    if |ids| > 0 {
      var m1 := SpeakerLabel(m, ids[0]).speakers;
      LabelAllKeeps(m1, ids[1..]);
      HeardCons(ids);
    }
  }

  /** The ids of a non-empty list are its head and the ids of its tail. */
  lemma HeardCons(ids: seq<int>)
    requires |ids| > 0
    ensures (set id | id in ids) == {ids[0]} + (set id | id in ids[1..])
  {
    assert ids == [ids[0]] + ids[1..];
  }

  // ---------------------------------------------------------- aggregation

  /**
   * The transcript state of the interview page: the finalized text, the
   * pending interim hypothesis, the speaker labels and what the live
   * transcript box shows.
   */
  datatype Aggregator = Aggregator(current: string, interim: string, speakers: SpeakerMap, display: string)

  /** The box shown before anything was transcribed and after a submit. */
  const Listening: string := "<p class=\"live-transcript\" style=\"font-style: italic; color: #888;\">Listening...</p>"

  function Start(): (a: Aggregator)
    ensures a.current == "" && a.interim == "" && a.speakers == map[]
  {
    Aggregator("", "", map[], Listening)
  }

  /** The `live_transcript_update` message relayed to the other clients. */
  datatype Update = Update(text: string, isFinal: bool)

  datatype Received = Received(state: Aggregator, broadcast: Option<Update>)

  /** `[Speaker]: ` markup placed before a diarized final result. */
  function Tagged(l: Label, transcript: string): string
  {
    "<span class=\"" + LabelClass(l) + "\">[" + LabelName(l) + "]:</span> " + transcript
  }

  function Paragraph(html: string): string
  {
    "<p class=\"live-transcript\">" + html + "</p>"
  }

  function InterimSpan(text: string): string
  {
    "<span style=\"opacity: 0.6; font-style: italic;\">" + text + "</span>"
  }

  /**
   * The recognition-socket message handler. `speaker` is the speaker of
   * the first recognised word, `None` when the result carries no words;
   * the speaker is labelled in dual-audio mode even when the transcript is
   * empty. An empty transcript changes nothing else. A final result is
   * appended (labelled in dual-audio mode) followed by a space and clears
   * the interim text; an interim result replaces the interim text. Every
   * non-empty result is broadcast when the relay socket is open, always as
   * the finalized text followed by the interim text.
   */
  function Receive(a: Aggregator, transcript: string, isFinal: bool, speaker: Option<int>,
                   dualMode: bool, socketOpen: bool): (o: Received)
    ensures dualMode && speaker.Some? ==> speaker.value in o.state.speakers
    ensures !(dualMode && speaker.Some?) ==> o.state.speakers == a.speakers
    ensures OneInterviewer(a.speakers) ==> OneInterviewer(o.state.speakers)
    ensures transcript == "" ==>
      o.state.current == a.current && o.state.interim == a.interim && o.broadcast == None
    ensures transcript != "" && isFinal ==>
      && o.state.interim == ""
      && |o.state.current| > |a.current| + |transcript|
      && o.state.current[..|a.current|] == a.current
      && EndsWith(o.state.current, transcript + " ")
    ensures transcript != "" && isFinal && !(dualMode && speaker.Some?) ==>
      o.state.current == a.current + transcript + " "
    ensures transcript != "" && !isFinal ==> o.state.current == a.current && o.state.interim == transcript
    ensures o.broadcast.Some? <==> transcript != "" && socketOpen
    ensures o.broadcast.Some? ==>
      o.broadcast.value == Update(o.state.current + o.state.interim, isFinal)
  {
    var labelled := if dualMode && speaker.Some? then Some(SpeakerLabel(a.speakers, speaker.value)) else None;
    var speakers := if labelled.Some? then labelled.value.speakers else a.speakers;
    if transcript == "" then Received(a.(speakers := speakers), None)
    else if isFinal then
      var piece := FinalPiece(labelled, transcript);
      AppendFinal(a.current, piece, transcript);
      var current := a.current + piece + " ";
      var b := if socketOpen then Some(Update(current + "", true)) else None;
      Received(Aggregator(current, "", speakers, Paragraph(current)), b)
    else
      var b := if socketOpen then Some(Update(a.current + transcript, false)) else None;
      Received(Aggregator(a.current, transcript, speakers, Paragraph(a.current + InterimSpan(transcript))), b)
  }

  /** `s` ends with `t`. */
  predicate EndsWith(s: string, t: string)
  {
    |t| <= |s| && s[|s| - |t|..] == t
  }

  /** A labelled transcript ends with the transcript. */
  lemma TaggedEndsWith(l: Label, transcript: string)
    ensures EndsWith(Tagged(l, transcript), transcript) && |Tagged(l, transcript)| > |transcript|
  {
    var t := Tagged(l, transcript);
    var head := "<span class=\"" + LabelClass(l) + "\">[" + LabelName(l) + "]:</span> ";
    assert t == head + transcript;
    assert t[|t| - |transcript|..] == transcript;
  }

  /** A final result as appended: labelled in dual-audio mode, as is
      otherwise. */
  function FinalPiece(labelled: Option<Labelled>, transcript: string): (r: string)
    ensures EndsWith(r, transcript)
    ensures labelled.None? ==> r == transcript
  {
    if labelled.Some? then
      TaggedEndsWith(labelled.value.name, transcript);
      Tagged(labelled.value.name, transcript)
    else transcript
  }

  /** Appending a piece that ends with `t`, then a space, keeps the old text
      in front and ends with `t` and the space. */
  lemma AppendFinal(prefix: string, piece: string, t: string)
    requires EndsWith(piece, t)
    ensures var current := prefix + piece + " ";
      && |current| > |prefix| + |t|
      && current[..|prefix|] == prefix
      && EndsWith(current, t + " ")
  {
    var current := prefix + piece + " ";
    assert current[|current| - |t| - 1..] == piece[|piece| - |t|..] + " ";
  }

  /** The finalized text produced by a run of final results without
      speaker labels: each transcript followed by one space. */
  function Spaced(ts: seq<string>): string
  {
    if |ts| == 0 then "" else ts[0] + " " + Spaced(ts[1..])
  }

  /** Feeds a run of final results outside dual-audio mode. */
  function ReceiveFinals(a: Aggregator, ts: seq<string>, socketOpen: bool): Aggregator
    decreases |ts|
  {
    if |ts| == 0 then a else ReceiveFinals(Receive(a, ts[0], true, None, false, socketOpen).state, ts[1..], socketOpen)
  }

  /** Without diarization the finalized transcript is the non-empty final
      results in arrival order, each followed by a space. */
  lemma {:induction false} FinalsAccumulate(a: Aggregator, ts: seq<string>, socketOpen: bool)
    ensures ReceiveFinals(a, ts, socketOpen).current == a.current + Spaced(Filter(NonEmpty, ts))
    decreases |ts|
  {
    if |ts| > 0 {
      var a1 := Receive(a, ts[0], true, None, false, socketOpen).state;
      var rest := Filter(NonEmpty, ts[1..]);
      FinalsAccumulate(a1, ts[1..], socketOpen);
      ReceiveFinalsStep(a, ts, socketOpen);
      FilterStep(NonEmpty, ts);
      var all := Filter(NonEmpty, ts);
      if ts[0] != "" {
        assert all == [ts[0]] + rest;
        SpacedCons(ts[0], rest);
        assert Spaced(all) == ts[0] + " " + Spaced(rest);
        assert a1.current == a.current + ts[0] + " ";
      } else {
        assert all == rest;
      }
    }
  }

  predicate NonEmpty(t: string)
  {
    t != ""
  }

  /** One step of `ReceiveFinals`. */
  lemma ReceiveFinalsStep(a: Aggregator, ts: seq<string>, socketOpen: bool)
    requires |ts| > 0
    ensures ReceiveFinals(a, ts, socketOpen)
         == ReceiveFinals(Receive(a, ts[0], true, None, false, socketOpen).state, ts[1..], socketOpen)
    ensures Receive(a, ts[0], true, None, false, socketOpen).state.current
         == if ts[0] == "" then a.current else a.current + ts[0] + " "
  {
  }

  lemma SpacedCons(t: string, ts: seq<string>)
    ensures Spaced([t] + ts) == t + " " + Spaced(ts)
  {
    assert ([t] + ts)[1..] == ts;
  }

  // --------------------------------------------------------------- submit

  /** The text content of an HTML fragment, as the browser parses it; the
      parser is outside the model. */
  type TextContent = string -> string

  /** What pressing Enter does: the text handed to `sendTranscriptionToServer`,
      if any; the text of the message put on the socket, if any; the new
      transcript state and the new content of the input field. */
  datatype Submitted = Submitted(chosen: Option<string>, message: Option<string>,
                                 state: Aggregator, input: string)

  /**
   * The Enter handler of the transcript input: chooses the trimmed manual
   * text when there is any and the finalized transcript otherwise; the
   * chosen text, stripped of its markup (the speaker tags of dual mode),
   * goes out only while the socket is open. After a choice the input, the
   * finalized transcript and the box are reset whether or not the socket
   * was open (the interim text is left as it is); with nothing to send,
   * nothing changes.
   */
  function Submit(a: Aggregator, input: string, socketOpen: bool, textContent: TextContent): (o: Submitted)
    ensures o.chosen.Some? <==> Trim(input) != "" || a.current != ""
    ensures Trim(input) != "" ==> o.chosen == Some(Trim(input))
    ensures Trim(input) == "" && a.current != "" ==> o.chosen == Some(a.current)
    ensures o.message.Some? <==> o.chosen.Some? && socketOpen
    ensures o.message.Some? ==> o.message.value == textContent(o.chosen.value)
    ensures o.chosen.Some? ==> o.state.current == "" && o.input == "" && o.state.display == Listening
    ensures o.chosen.None? ==> o.state == a && o.input == input
    ensures o.state.interim == a.interim && o.state.speakers == a.speakers
  {
    var manual := Trim(input);
    var text := if manual != "" then manual else a.current;
    if text != "" then
      var message := if socketOpen then Some(textContent(text)) else None;
      Submitted(Some(text), message, a.(current := "", display := Listening), "")
    else Submitted(None, None, a, input)
  }

  /** A second Enter straight after a send chooses and sends nothing, open
      socket or not. */
  lemma SubmitThenSubmit(a: Aggregator, input: string, socketOpen: bool, socketOpen': bool,
                         textContent: TextContent)
    requires Submit(a, input, socketOpen, textContent).chosen.Some?
    ensures var o := Submit(a, input, socketOpen, textContent);
      var o' := Submit(o.state, o.input, socketOpen', textContent);
      o'.chosen.None? && o'.message.None?
  {
    var o := Submit(a, input, socketOpen, textContent);
    TrimEmptyIff(o.input);
  }

  // ------------------------------------------------------ stream settings

  /** The query parameters of the streaming-recognition socket, in order. */
  function StreamParams(dualMode: bool): (r: seq<(string, string)>)
    ensures |r| == if dualMode then 6 else 5
    ensures ("model", "nova-3") in r && ("language", "multi") in r
    ensures ("diarize", "true") in r <==> dualMode
  {
    var base := [("model", "nova-3"), ("language", "multi"), ("punctuate", "true"),
                 ("interim_results", "true"), ("smart_format", "true")];
    assert base[0] == ("model", "nova-3") && base[1] == ("language", "multi");
    if dualMode then base + [("diarize", "true")] else base
  }

  /** No parameter name is repeated. */
  lemma StreamParamsDistinct(dualMode: bool)
    ensures var r := StreamParams(dualMode);
      forall i, j :: 0 <= i < j < |r| ==> r[i].0 != r[j].0
  {
  }

  // ---------------------------------------------------------------- timer

  /** Hours, minutes and seconds as two-digit (or wider) fields. */
  function ClockText(hours: nat, minutes: nat, seconds: nat): string
  {
    Pad2(hours) + ":" + Pad2(minutes) + ":" + Pad2(seconds)
  }

  /** The session timer's `HH:MM:SS` text for `elapsed` milliseconds. */
  function TimerText(elapsed: nat): (r: string)
    ensures |r| >= 8
  {
    ClockText(elapsed / 3600000, (elapsed % 3600000) / 60000, (elapsed % 60000) / 1000)
  }

  /** A clock text splits back into its three padded fields. */
  lemma ClockTextReadsBack(hours: nat, minutes: nat, seconds: nat)
    ensures Split(ClockText(hours, minutes, seconds), ':') == [Pad2(hours), Pad2(minutes), Pad2(seconds)]
  {
    var h, m, s := Pad2(hours), Pad2(minutes), Pad2(seconds);
    SplitClock(h, m, s);
    assert ClockText(hours, minutes, seconds) == h + ":" + m + ":" + s;
  }

  /** The timer text splits into three fields of digits, minutes and
      seconds of exactly two digits and below 60, that add up to the whole
      seconds elapsed. */
  lemma TimerTextReadsBack(elapsed: nat)
    ensures var parts := Split(TimerText(elapsed), ':');
      && |parts| == 3
      && (forall k, i :: 0 <= k < 3 && 0 <= i < |parts[k]| ==> IsDigit(parts[k][i]))
      && |parts[1]| == 2 && |parts[2]| == 2
      && ParseDecimal(parts[1]) < 60 && ParseDecimal(parts[2]) < 60
      && ParseDecimal(parts[0]) * 3600 + ParseDecimal(parts[1]) * 60 + ParseDecimal(parts[2]) == elapsed / 1000
  {
    var hours, minutes, seconds := elapsed / 3600000, (elapsed % 3600000) / 60000, (elapsed % 60000) / 1000;
    ClockFields(elapsed);
    ClockTextFields(hours, minutes, seconds);
  }

  /** The fields of a clock text read back as the numbers shown. */
  lemma ClockTextFields(hours: nat, minutes: nat, seconds: nat)
    ensures var parts := Split(ClockText(hours, minutes, seconds), ':');
      && |parts| == 3
      && (forall k, i :: 0 <= k < 3 && 0 <= i < |parts[k]| ==> IsDigit(parts[k][i]))
      && ParseDecimal(parts[0]) == hours && ParseDecimal(parts[1]) == minutes && ParseDecimal(parts[2]) == seconds
      && (minutes < 100 ==> |parts[1]| == 2) && (seconds < 100 ==> |parts[2]| == 2)
  {
    ClockTextReadsBack(hours, minutes, seconds);
    var parts := Split(ClockText(hours, minutes, seconds), ':');
    var h, m, s := Pad2(hours), Pad2(minutes), Pad2(seconds);
    assert parts[0] == h && parts[1] == m && parts[2] == s;
    forall k, i | 0 <= k < 3 && 0 <= i < |parts[k]|
      ensures IsDigit(parts[k][i])
    {
      if k == 0 {
        assert IsDigit(h[i]);
      } else if k == 1 {
        assert IsDigit(m[i]);
      } else {
        assert IsDigit(s[i]);
      }
    }
  }

  /** Three digit strings joined by colons split back into the three. */
  lemma SplitClock(h: string, m: string, s: string)
    requires forall i :: 0 <= i < |h| ==> IsDigit(h[i])
    requires forall i :: 0 <= i < |m| ==> IsDigit(m[i])
    requires forall i :: 0 <= i < |s| ==> IsDigit(s[i])
    ensures Split(h + ":" + m + ":" + s, ':') == [h, m, s]
  {
    DigitsFree(h);
    DigitsFree(m);
    DigitsFree(s);
    SplitCons(h, ':', m + ":" + s);
    SplitCons(m, ':', s);
    SplitFree(s, ':');
    assert h + ":" + m + ":" + s == h + [':'] + (m + [':'] + s);
    assert m + ":" + s == m + [':'] + s;
  }

  /** Hours, minutes and seconds taken from milliseconds as the timer does
      add back up to the whole seconds, minutes and seconds below 60. */
  lemma ClockFields(elapsed: nat)
    ensures (elapsed % 3600000) / 60000 < 60 && (elapsed % 60000) / 1000 < 60
    ensures (elapsed / 3600000) * 3600 + ((elapsed % 3600000) / 60000) * 60 + (elapsed % 60000) / 1000
         == elapsed / 1000
  {
    var h, r1 := elapsed / 3600000, elapsed % 3600000;
    var m, r2 := r1 / 60000, r1 % 60000;
    var sec, r3 := r2 / 1000, r2 % 1000;
    assert elapsed == 3600000 * h + r1;
    assert r1 == 60000 * m + r2;
    assert r2 == 1000 * sec + r3;
    assert m < 60 by {
      DivBound(r1, 60000, 60);
    }
    assert sec < 60 by {
      DivBound(r2, 1000, 60);
    }
    DivModUnique(elapsed, 60000, 60 * h + m, r2);
    DivModUnique(elapsed, 1000, 3600 * h + 60 * m + sec, r3);
  }

  /** Euclidean division is determined by the quotient and remainder. */
  lemma DivModUnique(e: int, d: int, q: int, r: int)
    requires d > 0 && 0 <= r < d && e == d * q + r
    ensures e / d == q && e % d == r
  {
    var q', r' := e / d, e % d;
    assert e == d * q' + r';
    if q' < q {
      MulLe(d, q' + 1, q);
      assert false;
    } else if q < q' {
      MulLe(d, q + 1, q');
      assert false;
    }
  }

  lemma MulLe(d: nat, a: int, b: int)
    requires a <= b
    ensures d * a <= d * b
  {
    assert d * b - d * a == d * (b - a);
  }

  /** A quotient of something below `d * k` is below `k`. */
  lemma DivBound(x: nat, d: nat, k: nat)
    requires d > 0 && x < d * k
    ensures x / d < k
  {
  }

  /** A string of digits holds no colon. */
  lemma DigitsFree(s: string)
    requires forall i :: 0 <= i < |s| ==> IsDigit(s[i])
    ensures ':' !in s
  {
  }

  // -------------------------------------------------------- record format

  /** The recording formats tried, in order of preference. */
  const RecorderTypes: seq<string> :=
    ["audio/webm", "audio/webm;codecs=opus", "audio/mp4", "audio/ogg;codecs=opus"]

  /** The recorder takes WebM when it can, then WebM with Opus, then MP4,
      then Ogg with Opus, and no format when the browser supports none. */
  lemma RecorderPreference(isSupported: string -> bool)
    ensures FirstSupported(RecorderTypes, isSupported)
         == if isSupported("audio/webm") then Some("audio/webm")
            else if isSupported("audio/webm;codecs=opus") then Some("audio/webm;codecs=opus")
            else if isSupported("audio/mp4") then Some("audio/mp4")
            else if isSupported("audio/ogg;codecs=opus") then Some("audio/ogg;codecs=opus")
            else None
  {
    var ts := RecorderTypes;
    assert ts[1..] == ["audio/webm;codecs=opus", "audio/mp4", "audio/ogg;codecs=opus"];
    assert ts[1..][1..] == ["audio/mp4", "audio/ogg;codecs=opus"];
    assert ts[1..][1..][1..] == ["audio/ogg;codecs=opus"];
    assert ts[1..][1..][1..][1..] == [];
  }

  /** The first of `types` the browser supports, by recursion. */
  function FirstSupported(types: seq<string>, isSupported: string -> bool): (r: Option<string>)
    ensures r.None? <==> forall i :: 0 <= i < |types| ==> !isSupported(types[i])
    ensures r.Some? ==> r.value in types && isSupported(r.value)
  {
    if |types| == 0 then None
    else if isSupported(types[0]) then Some(types[0])
    else
      var r := FirstSupported(types[1..], isSupported);
      assert forall i :: 1 <= i < |types| ==> types[i] == types[1..][i - 1];
      r
  }

  /**
   * `getSupportedMimeType` over the formats tried: the first format the
   * browser supports, or none. `isSupported` stands for
   * `MediaRecorder.isTypeSupported`.
   */
  method SupportedMimeType(types: seq<string>, isSupported: string -> bool) returns (r: Option<string>)
    ensures r == FirstSupported(types, isSupported)
    ensures r.Some? ==> exists i :: (0 <= i < |types| && r == Some(types[i]) && isSupported(types[i])
      && forall j :: 0 <= j < i ==> !isSupported(types[j]))
  {
    var i := 0;
    while i < |types|
      invariant 0 <= i <= |types|
      invariant forall j :: 0 <= j < i ==> !isSupported(types[j])
      invariant FirstSupported(types, isSupported) == FirstSupported(types[i..], isSupported)
    {
      if isSupported(types[i]) {
        assert FirstSupported(types[i..], isSupported) == Some(types[i]);
        return Some(types[i]);
      }
      assert types[i..][1..] == types[i + 1..];
      i := i + 1;
    }
    return None;
  }
}
