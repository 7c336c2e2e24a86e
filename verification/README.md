# Interview Co-pilot: a Dafny model of its core

Interview Co-pilot helps a candidate during a live job interview. It
transcribes the call, shows the transcript in a browser page and in a
desktop overlay, and predicts the interviewer's next questions from a job
description. Around that sit a resume and document manager, an analytics
dashboard with a calendar, and a settings page. This project models the
decision logic of those parts as pure Dafny functions over immutable data
and proves what each one promises.

| file | module | models |
|---|---|---|
| `lists.dfy` | `Lists` | `Option`, filtering, mapping, subsequences, "last n, newest first" tables, `splice` |
| `text.dfy` | `Text` | ASCII lower-casing, substring search, `trim`, one-character `split`/`join`, decimal printing and parsing, `padStart` |
| `question_predictor.dfy` | `QuestionPredictor` | the question predictor (`copilot/pattern_analyzer.py`) |
| `live_transcript.dfy` | `LiveTranscript` | the live transcript of the interview page (`static/copilot/js/interview.js`) |
| `overlay.dfy` | `Overlay` | the overlay window (`electron/js/renderer.js`) |
| `documents.dfy` | `Documents` | the resume builder page (`static/copilot/js/resume-builder.js`) |
| `analytics.dfy` | `Analytics` | the dashboard (`static/copilot/js/dashboard.js`) |
| `calendar.dfy` | `Calendar` | the interview calendar (`static/copilot/js/calendar.js`) |
| `settings.dfy` | `Settings` | the settings page (`static/copilot/js/settings.js`) |

Modelling conventions:
- Browser storage is a `map`, or a `seq` for the JSON arrays kept in it.
- Absent JSON fields are `Option`.
- JavaScript `x || default` is written out as `OrText`, `OrZero` and `Stored`.
- The clock, the browser locale, `MediaRecorder.isTypeSupported`, the
  confirmation prompt, the browser's HTML parsing (`textContent`) and the
  translation table's regular-expression rewriting are parameters of the functions that use them.
- Python's `float` depth score is a `real`. Confidences are integer
  hundredths.

## Model

| member | source | states |
|---|---|---|
| QuestionPredictor.NewPredictor | copilot/pattern_analyzer.py:13-19 | a new predictor has the built-in topic graph, no history, nothing covered, no current topic, and the requirements extracted from the job description (none for an empty one) |
| QuestionPredictor.SelectRequirements | copilot/pattern_analyzer.py:190-198 | every skill of the table whose keyword occurs in the job text yields its requirement, and every requirement produced comes from such a skill |
| QuestionPredictor.SelectRequirementsOrdered | copilot/pattern_analyzer.py:190-198 | the requirements keep skills-table order (a subsequence of the table's requirements) |
| QuestionPredictor.ExtractRequirements | copilot/pattern_analyzer.py:21-198 | an empty description gives no requirements; otherwise exactly the mentioned skills of the built-in table become requirements |
| QuestionPredictor.ExtractRequirementsOrdered | copilot/pattern_analyzer.py:190-198 | the extracted requirements follow the skills table's order |
| QuestionPredictor.SkillsTableQuestions | copilot/pattern_analyzer.py:33-187 | every skill of the built-in table carries three question templates |
| QuestionPredictor.ExtractedRequirementsHaveQuestions | copilot/pattern_analyzer.py:33-198 | every extracted requirement has three questions |
| QuestionPredictor.FirstTopicFrom | copilot/pattern_analyzer.py:341-346 | the result is "general" exactly when no topic from the given index on has a keyword in the text; otherwise it is the first topic that does |
| QuestionPredictor.ExtractTopic | copilot/pattern_analyzer.py:319-346 | the topic is the first of the keyword table, in table order, with a keyword in the lower-cased question, and "general" exactly when there is none |
| QuestionPredictor.CountPresent | copilot/pattern_analyzer.py:369 | the count of technical terms present is at most the number of terms, and zero exactly when none occurs |
| QuestionPredictor.AnalyzeDepth | copilot/pattern_analyzer.py:348-384 | an empty answer scores 0; the score lies in [0, 1]; a metric or an experience phrase lifts it to at least 0.2, and both together to at least 0.4 |
| QuestionPredictor.DepthMonotoneInMetrics | copilot/pattern_analyzer.py:380-382 | mentioning a metric never lowers the depth score |
| QuestionPredictor.DeeperQuestions | copilot/pattern_analyzer.py:386-396 | a known topic gives its follow-ups; an unknown one gives the three generic questions |
| QuestionPredictor.FirstFollowUps | copilot/pattern_analyzer.py:405-413 | at most one question per related topic, each the first follow-up of a related topic present in the graph, and one for each when all are present |
| QuestionPredictor.FirstFollowUpsIsFilterMap | copilot/pattern_analyzer.py:405-413 | the loop equals mapping "first follow-up" over the related topics that are in the graph and have follow-ups |
| QuestionPredictor.RelatedQuestions | copilot/pattern_analyzer.py:398-413 | an unknown topic gives nothing; a known one gives at most one lead question per related topic, each from a related topic |
| QuestionPredictor.AddCustomPattern | copilot/pattern_analyzer.py:695-700 | the topic's entry is set to the new follow-ups and related topics, and every other topic is unchanged |
| QuestionPredictor.CustomPatternUsed | copilot/pattern_analyzer.py:695-700 | after adding a pattern, its follow-ups are the deeper questions of the topic and its related topics drive the related questions |
| QuestionPredictor.Translate | copilot/pattern_analyzer.py:415-421 | English and every language without a translation table are returned unchanged |
| QuestionPredictor.Ranked | copilot/pattern_analyzer.py:578-587 | one prediction per question, in order, translated, with confidence falling by a fixed step per position |
| QuestionPredictor.SkillKey | copilot/pattern_analyzer.py:656 | the coverage key of a skill has the skill's length and no spaces |
| QuestionPredictor.CurrentRequirement | copilot/pattern_analyzer.py:631-636 | the requirement found is the first of the list whose lower-cased skill name occurs in the lower-cased question or answer; none is found exactly when no skill name occurs in either |
| QuestionPredictor.Remaining | copilot/pattern_analyzer.py:640 | the remaining templates are the requirement's own templates other than the question asked, in their order |
| QuestionPredictor.Pending | copilot/pattern_analyzer.py:652-662 | exactly the uncovered requirements of one priority, in their original order |
| QuestionPredictor.PrioritizedOrder | copilot/pattern_analyzer.py:652-665 | every prioritized requirement is uncovered, and no normal-priority one precedes a high-priority one |
| QuestionPredictor.LeadPredictions | copilot/pattern_analyzer.py:667-679 | each lead is a related-topic prediction of a top requirement that has questions, and there is one per requirement when all have questions |
| QuestionPredictor.WithDeeperDive | copilot/pattern_analyzer.py:681-691 | the leads are kept as a prefix; the list is topped up to at most three with follow-ups at 0.75 taken from the current requirement's other questions, and with no current requirement nothing is added |
| QuestionPredictor.JobPredictions | copilot/pattern_analyzer.py:615-693 | the job path predicts at most three questions |
| QuestionPredictor.JobShallowAnswer | copilot/pattern_analyzer.py:638-650 | for a superficial answer about a known requirement: up to three follow-ups at 0.90, 0.85, 0.80 drawn from that requirement's other questions, citing the skill |
| QuestionPredictor.JobDeepAnswer | copilot/pattern_analyzer.py:652-691 | otherwise: one related-topic lead per top uncovered requirement at 0.88, 0.80, 0.72, followed only by deeper-dive follow-ups at 0.75, and only the leads when no requirement is current |
| QuestionPredictor.JobDeepIsDeeperDive | copilot/pattern_analyzer.py:652-693 | off the superficial path, the job predictions are the leads of the top three prioritized requirements topped up with deeper-dive questions |
| QuestionPredictor.DeepLeads | copilot/pattern_analyzer.py:667-679 | the leads are exactly one per top prioritized requirement, with its first question translated, at 0.88 minus 0.08 per position |
| QuestionPredictor.PredictNext | copilot/pattern_analyzer.py:529-613 | at most three predictions; the question and its topic are appended to the history; the topic becomes current and is marked covered unless it is "general"; graph, requirements and job description are unchanged |
| QuestionPredictor.FallbackPath | copilot/pattern_analyzer.py:572-613 | with no requirements, or no job prediction, the result is the first three fallback predictions |
| QuestionPredictor.JobPath | copilot/pattern_analyzer.py:563-569 | with requirements that yield predictions, the result is those one to three job predictions, made with the question's topic already counted as covered |
| QuestionPredictor.FallbackShallowAnswer | copilot/pattern_analyzer.py:574-587 | fallback after a superficial answer: the topic's first three deeper questions as follow-ups at 0.85, 0.75, 0.65 |
| QuestionPredictor.FallbackDeepAnswer | copilot/pattern_analyzer.py:588-613 | fallback after a detailed answer: related-topic questions first at 0.75 minus 0.10 per position, then one deeper question at 0.60 exactly when fewer than three related ones exist and the topic has deeper questions |
| QuestionPredictor.FallbackDeepShape | copilot/pattern_analyzer.py:588-610 | before the cut to three, the detailed-answer predictions are all related questions in order, plus one deeper question when fewer than three related exist |
| LiveTranscript.SpeakerLabel | static/copilot/js/interview.js:341-351 | the speaker gets a label that is then kept; other speakers keep theirs; at most one speaker is ever the interviewer |
| LiveTranscript.FirstHeardIsInterviewer | static/copilot/js/interview.js:341-351 | starting with no speakers, the speakers heard are labelled, and exactly the first one heard is the interviewer |
| LiveTranscript.LabelAllKeeps | static/copilot/js/interview.js:341-351 | once someone is labelled, existing labels never change and every newly heard speaker is "You" |
| LiveTranscript.Start | static/copilot/js/interview.js:43-51 | the aggregator starts with no finalized text, no interim text and no speakers |
| LiveTranscript.Receive | static/copilot/js/interview.js:525-598 | an empty result changes nothing and broadcasts nothing; a final result is appended with a space after it (with a speaker tag in dual-audio mode) and the interim text is cleared; an interim result only replaces the interim text; an update is broadcast exactly when the result is non-empty and the socket is open |
| LiveTranscript.FinalPiece | static/copilot/js/interview.js:549-556 | the appended piece ends with the transcript, and is the transcript itself without a speaker |
| LiveTranscript.FinalsAccumulate | static/copilot/js/interview.js:545-560 | without diarization, a run of final results leaves the finalized text as the old text followed by each non-empty result and a space |
| LiveTranscript.Submit | static/copilot/js/interview.js:1252-1283 | Enter hands the trimmed typed text when there is any, else the finalized transcript, to the sender, which puts its markup-free text on the socket exactly when the socket is open (lines 626-659); the choice clears the input and the finalized text and shows "Listening", open socket or not; with nothing to send nothing changes |
| LiveTranscript.SubmitThenSubmit | static/copilot/js/interview.js:1252-1283 | a second Enter straight after a send chooses nothing and puts nothing on the socket |
| LiveTranscript.StreamParams | static/copilot/js/interview.js:475-487 | five query parameters, plus `diarize=true` exactly in dual-audio mode, always with model nova-3 and language multi |
| LiveTranscript.StreamParamsDistinct | static/copilot/js/interview.js:475-487 | no parameter name is repeated |
| LiveTranscript.TimerText | static/copilot/js/interview.js:1115-1123 | the timer text is at least eight characters long |
| LiveTranscript.TimerTextReadsBack | static/copilot/js/interview.js:1115-1123 | the text splits at colons into three digit fields; minutes and seconds are two digits below 60; the fields read back as the elapsed whole seconds |
| LiveTranscript.ClockTextFields | static/copilot/js/interview.js:1122-1123 | each padded field reads back as the number shown |
| LiveTranscript.ClockFields | static/copilot/js/interview.js:1116-1118 | the hour, minute and second arithmetic recovers the elapsed whole seconds, with minutes and seconds below 60 |
| LiveTranscript.FirstSupported | static/copilot/js/interview.js:879-894 | no format is returned exactly when none is supported; otherwise a supported format from the list |
| LiveTranscript.SupportedMimeType | static/copilot/js/interview.js:887-893 | the loop returns the first supported format of the list, in order of preference |
| LiveTranscript.RecorderPreference | static/copilot/js/interview.js:880-893 | over the fixed list, WebM is taken when supported, then WebM with Opus, then MP4, then Ogg with Opus, and no format when none is supported |
| Overlay.ShowTranscript | electron/js/renderer.js:84-101 | a final text is shown whole; an interim text shows its last three words as tentative and the rest as settled, and the two read back as the text |
| Overlay.ShownReadsBack | electron/js/renderer.js:94-97 | settled text, a space and tentative text give back the transcript (with a leading space when it has at most three words) |
| Overlay.TailWords | electron/js/renderer.js:94-96 | the last three words joined split back into themselves, and joined to the rest they give the text back |
| Overlay.FindCurrent | electron/js/renderer.js:165 | the entry found is the first marked current; none is found exactly when no entry is marked |
| Overlay.FirstSystem | electron/js/renderer.js:132 | the system message kept is the first one, and none exactly when there is none |
| Overlay.AddMessage | electron/js/renderer.js:128-161 | a question clears the panel but for the system message; an answer is appended to the panel; the new entry is last, and is marked current when it is an answer |
| Overlay.QuestionClears | electron/js/renderer.js:130-137 | after a question at most the system message and the question remain, and nothing is current |
| Overlay.AddAnswerChunk | electron/js/renderer.js:164-174 | a chunk extends the current answer and changes nothing else, or starts a new current answer when there is none |
| Overlay.CompleteAnswer | electron/js/renderer.js:177-200 | the current answer is rendered as markdown and unmarked; nothing else changes |
| Overlay.CompleteIdempotent | electron/js/renderer.js:177-200 | completing twice is completing once |
| Overlay.StreamedAnswer | electron/js/renderer.js:46-61 | chunks after a question build exactly one answer, stamped with the first chunk's time and holding all chunks in order |
| Overlay.Handle | electron/js/renderer.js:30-67 | transcript updates change only the mirrored transcript; initialization and unknown messages change nothing; the panel stays well formed |
| Overlay.SendTranscription | electron/js/renderer.js:104-117 | a message with the default model is sent exactly when the socket is open |
| Overlay.PressEnter | electron/js/renderer.js:203-227 | Enter sends the trimmed typed text, else the mirrored transcript, when the socket is open; with something to send the input and transcript are cleared and the placeholder is shown, and with nothing nothing changes |
| Overlay.EnterThenEnter | electron/js/renderer.js:203-227 | two Enters in a row send at most once |
| Documents.SaveDetectedLanguage | static/copilot/js/resume-builder.js:19-31 | a resume writes the two resume fields, a job description the two job fields, any other type nothing; no other field changes |
| Documents.LanguagesIndependent | static/copilot/js/resume-builder.js:19-31 | saving the resume's language and the job's language commute |
| Documents.Extension | static/copilot/js/resume-builder.js:171 | the extension is a dot followed by dot-free text |
| Documents.ExtensionAfterLastDot | static/copilot/js/resume-builder.js:171 | the extension is the lower-cased text after the last dot |
| Documents.ExtensionWithoutDot | static/copilot/js/resume-builder.js:171 | a name without a dot counts as its own extension |
| Documents.HandleFiles | static/copilot/js/resume-builder.js:164-185 | no file does nothing; otherwise only the first file is taken, and it is accepted exactly when its extension is a valid type |
| Documents.UploadIgnoresCase | static/copilot/js/resume-builder.js:170-173 | `cv.PDF` is accepted |
| Documents.UploadBareName | static/copilot/js/resume-builder.js:170-173 | a file named just `txt` is accepted |
| Documents.UploadRejectsOthers | static/copilot/js/resume-builder.js:170-176 | `notes.md` is refused |
| Documents.StoreFileVersion | static/copilot/js/resume-builder.js:304-316 | one entry is appended with the file's type, name, byte size, path and time; earlier entries are kept |
| Documents.StoreTextVersion | static/copilot/js/resume-builder.js:412-424 | one text entry is appended with its type, the name for its type, path "text" and time; earlier entries are kept |
| Documents.TextSizeReadsBack | static/copilot/js/resume-builder.js:418 | the size label is a number and the word "chars", and the number reads back as the text's length |
| Documents.Recent | static/copilot/js/resume-builder.js:546-550 | the empty state appears exactly for an empty list; otherwise at most n rows, newest first |
| Documents.VersionsView | static/copilot/js/resume-builder.js:526-567 | the versions grid is empty exactly for no versions, and otherwise shows the six most recent |
| Documents.DeleteAt | static/copilot/js/resume-builder.js:570-585 | without confirmation nothing changes; otherwise exactly the entry at the index is removed and the order of the rest is kept |
| Documents.DeleteShownRow | static/copilot/js/resume-builder.js:546-581 | the delete button of a shown row removes exactly the entry that row shows |
| Documents.AddInterview | static/copilot/js/resume-builder.js:633-657 | a registered role leaves the list unchanged; a new one is appended as pending; afterwards the role is registered and no role appears twice |
| Documents.AddInterviewIdempotent | static/copilot/js/resume-builder.js:636-642 | registering the same role again changes nothing, whatever the time |
| Documents.InterviewsView | static/copilot/js/resume-builder.js:660-698 | the interviews table is empty exactly for no interviews, and otherwise shows the ten most recent |
| Documents.Preview | static/copilot/js/resume-builder.js:472-474 | text up to 100 characters is shown whole; longer text as its first 100 characters and "..." |
| Documents.SummaryRows | static/copilot/js/resume-builder.js:458-523 | at most a resume row then a job row, each present exactly when its summary is loaded and not a not-found message, each with its preview |
| Documents.FilterFaqs | static/copilot/js/resume-builder.js:1062-1069 | an empty search keeps every FAQ; otherwise exactly the FAQs whose question or answer contains the term, ignoring case, in their order and each as often as it occurs |
| Documents.FaqNarrowing | static/copilot/js/resume-builder.js:1063-1068 | typing more narrows the results |
| Lists.RecentFirstIndexes | static/copilot/js/resume-builder.js:546-550 | the stored index each shown row carries designates the entry that row shows |
| Lists.SpliceOne | static/copilot/js/resume-builder.js:578 | `splice(index, 1)` removes the entry at the index (counted from the end when negative) and keeps the rest in order; an index past the end changes nothing |
| Lists.SpliceOneRemovesExactly | static/copilot/js/resume-builder.js:578 | removing by position takes away exactly that one entry |
| Analytics.CalculateMetrics | static/copilot/js/dashboard.js:38-47 | the interview count is the number of sessions; the averages times the count give the totals; with no sessions the averages keep their previous values |
| Analytics.MetricsAfterRecording | static/copilot/js/dashboard.js:40-41 | recording a session adds one interview and its questions to the totals |
| Analytics.Increment | static/copilot/js/dashboard.js:135 | counting a key keeps the keys' order, appends a new key with count 1, and adds one to the total |
| Analytics.IncrementCounts | static/copilot/js/dashboard.js:135 | counting a key adds one to its count and leaves the others alone |
| Analytics.TallyOf | static/copilot/js/dashboard.js:132-136 | each key is listed once, with its number of occurrences, and the counts add up to the number of sessions |
| Analytics.TallyKeysFirstSeen | static/copilot/js/dashboard.js:132-138 | the keys appear in order of first appearance |
| Analytics.ChartOf | static/copilot/js/dashboard.js:138-143 | a non-empty tally gives its keys and counts; an empty one gives the placeholder data |
| Analytics.LanguageChart | static/copilot/js/dashboard.js:125-143 | no sessions give the four-language placeholder; otherwise one bar per language |
| Analytics.LanguageChartCounts | static/copilot/js/dashboard.js:132-139 | each language bar is the number of sessions in that language, English when unset, and positive |
| Analytics.ModelChart | static/copilot/js/dashboard.js:225-236 | no sessions give the three-model placeholder; otherwise one bar per model |
| Analytics.SessionsTable | static/copilot/js/dashboard.js:273-301 | no sessions show the empty row; otherwise the ten most recent sessions, newest first, each with its table cells |
| Analytics.CsvCells | static/copilot/js/dashboard.js:322-329 | a CSV line has eight cells, the last "Completed" |
| Analytics.TableCells | static/copilot/js/dashboard.js:289-298 | a table row has eight cells, equal to the CSV's except the duration, which reads back as the number of minutes followed by "min" |
| Analytics.ExportCsv | static/copilot/js/dashboard.js:311-330 | no sessions export nothing; otherwise the text starts with the header line and ends with a line break |
| Analytics.CsvLines | static/copilot/js/dashboard.js:321-330 | when no cell holds a line break, the body splits into one line per session in order |
| Analytics.CsvLineFields | static/copilot/js/dashboard.js:322-329 | when no cell holds a comma, each line splits back into the session's eight cells |
| Analytics.CommaInCompany | static/copilot/js/dashboard.js:323 | a company name with a comma makes its line read back as nine fields, because cells are not quoted |
| Analytics.ExportFileName | static/copilot/js/dashboard.js:337 | the download is named after the part of the ISO timestamp before its first `T` |
| Analytics.AddSession | static/copilot/js/dashboard.js:345-355 | one session is appended with every field filled in and the current time; earlier sessions are kept |
| Analytics.RecordedShowsAsReported | static/copilot/js/dashboard.js:345-355 | filling in defaults when recording changes nothing the table, the CSV or the charts show |
| Calendar.DaysInMonth | static/copilot/js/calendar.js:65-66 | a month has 28 to 31 days, and February has 29 exactly in leap years |
| Calendar.NextDay | static/copilot/js/calendar.js:85-101 | the next day exists, is the following day of the month, or the first day of the next month after the last day |
| Calendar.ChangeMonthAsWritten | static/copilot/js/calendar.js:47-50 | `setMonth` keeps the day when the target month has it; otherwise it lands in the month after the target |
| Calendar.NextFromJanuary31SkipsFebruary | static/copilot/js/calendar.js:47-50 | "next month" from 31 January 2025 shows March |
| Calendar.ChangeMonth | static/copilot/js/calendar.js:47-50 | corrected; see ## Findings: the month moves by exactly delta, crossing years, and the day is clamped to the target month |
| Calendar.ChangeMonthBack | static/copilot/js/calendar.js:36-37 | corrected; see ## Findings: going forward and back returns to the same month |
| Calendar.MonthTitleReadsBack | static/copilot/js/calendar.js:57-61 | the heading splits into the month's abbreviation, which names one month only, and the year |
| Calendar.DayInterviews | static/copilot/js/calendar.js:113-120 | exactly the interviews starting on the day, in their order and each as often as it occurs, so equal entries on one day are all counted |
| Lists.FilterCounts | static/copilot/js/calendar.js:113-120 | `Array.filter` keeps every occurrence of a kept element and none of any other |
| Calendar.NoInterviewsOutsideCalendar | static/copilot/js/calendar.js:113-120 | a month number outside 0 to 11 matches no interview |
| Calendar.DayCell | static/copilot/js/calendar.js:104-155 | a cell shows its date and kind and the number of interviews that day, and is marked past exactly when it has interviews and its midnight lies before now |
| Calendar.CountTitleReadsBack | static/copilot/js/calendar.js:145-146 | the tooltip reads back as the count, with "interviews" exactly for more than one |
| Calendar.OtherMonthArgsAsWritten | static/copilot/js/calendar.js:77-101 | the neighbouring-month cells get month -1 in January and 12 in December, with the year unchanged |
| Calendar.JanuaryGridMissesDecember | static/copilot/js/calendar.js:77-81 | the 31 December 2024 cell of the January 2025 grid finds no interview on that day, while the real date does |
| Calendar.GridConsecutive | static/copilot/js/calendar.js:77-101 | consecutive cells of the grid show consecutive days |
| Calendar.GridDateFacts | static/copilot/js/calendar.js:77-101 | every grid cell shows a real date, and the cells of the month are exactly those between the leading and trailing days |
| Calendar.LeadingDays | static/copilot/js/calendar.js:77-81 | one cell per weekday before the first, each a day of the previous month |
| Calendar.MonthDays | static/copilot/js/calendar.js:84-93 | one cell per day of the month, continuing the grid |
| Calendar.TrailingDays | static/copilot/js/calendar.js:95-101 | the grid is filled up to a whole number of weeks, adding fewer than seven cells |
| Calendar.RenderCalendar | static/copilot/js/calendar.js:52-102 | corrected; see ## Findings: whole weeks; the month's first and last days at their positions; consecutive days in consecutive cells; each cell drawn for its own date with its interviews, today marked |
| Settings.KeyTextInjective | static/copilot/js/settings.js:33-39 | the five entries the page owns and the other entries are stored under pairwise different names, so each browser entry has one key |
| Settings.Stored | static/copilot/js/settings.js:33-39 | a missing or empty entry reads as the fallback, any other entry as itself |
| Settings.GetLLMProvider | static/copilot/js/settings.js:356-358 | the saved provider, OpenAI when none is saved |
| Settings.GetCurrentModel | static/copilot/js/settings.js:363-370 | the saved model of the active provider, or that provider's default model |
| Settings.PutKey | static/copilot/js/settings.js:94-104 | a non-empty key is stored, an empty one removed, and no other entry appears or disappears |
| Settings.StoreForm | static/copilot/js/settings.js:94-108 | both keys are stored or removed, the three choices are stored, and every other entry is kept |
| Settings.SaveSettings | static/copilot/js/settings.js:67-130 | an OpenAI key not starting with "sk-" is rejected and storage is untouched; otherwise the form is stored trimmed and the provider and model in use are reported |
| Settings.SaveThenCurrentModel | static/copilot/js/settings.js:106-130 | after a save, the accessors report the provider and model the confirmation named |
| Settings.SaveIdempotent | static/copilot/js/settings.js:67-130 | saving the same form again changes nothing |
| Settings.LoadSettings | static/copilot/js/settings.js:29-62 | the form shows the saved provider, and the active provider's model is the current model |
| Settings.SaveThenLoad | static/copilot/js/settings.js:29-130 | loading after a save shows the form back, keys trimmed and empty choices replaced by their defaults |
| Settings.ToggleProviderFields | static/copilot/js/settings.js:254-268 | the OpenAI model list is shown exactly for the OpenAI provider; the Ollama list and status exactly otherwise |
| Settings.ShownModelIsCurrent | static/copilot/js/settings.js:49-54 | on load, the visible model list holds the current model |
| Text.Trim | static/copilot/js/settings.js:79 | `trim` removes only surrounding whitespace and leaves none at either end |
| Text.TrimEmptyIff | static/copilot/js/interview.js:1256 | a text trims to nothing exactly when it is all whitespace |
| Text.JoinSplit | electron/js/renderer.js:94-96 | joining the pieces of a split gives the text back |
| Text.SplitJoin | electron/js/renderer.js:94-96 | splitting a join of separator-free pieces gives the pieces back |
| Text.SplitFirst | static/copilot/js/dashboard.js:337 | the first piece of a split is the text before the first separator |
| Text.SplitLastPiece | static/copilot/js/resume-builder.js:171 | the last piece of a split is the text after the last separator |
| Text.Pad2 | static/copilot/js/interview.js:1123 | `padStart(2, '0')` gives at least two digits with the same value, exactly two below 100 |

## Left out

- Sockets, `fetch`, uploads, reconnection timers, `localStorage` I/O and
  logging: the model works on the values they carry, and takes whether a
  socket is open as a parameter where a send depends on it.
- The other fields of the interview page's `transcription` message
  (provider, model and the predictions flag): `LiveTranscript.Submit`
  records only its text.
- DOM building, `innerHTML`, HTML escaping and markdown rendering: a cell,
  view or entry records what is shown, not the markup.
- The phrase tables of `translate_question` for Portuguese and French are
  an oracle `rewrite` on strings; the chained case-insensitive regular
  expression replacement is not modelled.
- The metric regular expression of `analyze_depth` is the boolean
  `hasMetrics`, and the other substring tests are exact.
- `toLowerCase`, `lower`, `trim` and `split()` act on ASCII letters and
  ASCII whitespace only. String length counts characters, not UTF-16 units.
- Python floats and JavaScript numbers: the depth score is an exact
  `real`, so IEEE rounding near the 0.6 threshold is not modelled.
  Confidences are integer hundredths and averages are exact.
- Clocks and the browser locale are parameters: `now`, `isoNow` and
  `localeDate`. `Date` parsing of interview start times is replaced by a
  calendar date.
- `confirm` is a boolean argument and `alert` is not modelled.
- A diarized result without a speaker id reaches `getSpeakerLabel` with
  `undefined`; here the speaker is an `Option<int>`, and `None` means no tag.
- `Object.keys` lists integer-like keys first in JavaScript; the tallies
  keep insertion order for every key.
- `checkOllamaStatus`, the button and highlight timers of `saveSettings`,
  `showInterviewDetails` and `updateActiveModelBadge` are left out; they
  only touch the page.
- The overlay's opacity slider and window controls are left out.
- Calendar.Weekday: computed by Sakamoto's method and bounded to 0-6; it is
  not proved to advance by one with `NextDay`.
- QuestionPredictor.JobDeepAnswer: requires every requirement to have
  questions. `ExtractedRequirementsHaveQuestions` shows this holds for
  every extracted list, and `LeadPredictions` states the general case.
- QuestionPredictor.JobPredictions: its own contract bounds the length
  only; the content is stated by `JobShallowAnswer` and `JobDeepAnswer`.
- Analytics.ExportCsv: its contract states the header and the final line
  break; the lines are stated by `CsvLines` and `CsvLineFields`. Cells
  holding commas are not quoted, which `CommaInCompany` shows.
- Analytics.LanguageChart and Analytics.ModelChart: with sessions, their
  own contracts state only that a bar exists; `LanguageChartCounts`
  states the counts for languages, and the model chart is the same tally
  over another field.

## Findings

| source | as written | input that shows it | evidently intended | confidence | as-written member | corrected member |
|---|---|---|---|---|---|---|
| static/copilot/js/calendar.js:77-101 | the previous and next month's cells call `createDayElement` with `month - 1` and `month + 1` and the year unchanged, and the interview filter compares `getMonth()` with that number | the January 2025 grid: its 31 December 2024 cell is looked up as month -1 of 2025, so an interview on 31 December 2024 never shows | cells of the neighbouring months carry that month's real year and month | not executed | Calendar.OtherMonthArgsAsWritten, Calendar.JanuaryGridMissesDecember | Calendar.RenderCalendar |
| static/copilot/js/calendar.js:47-50 | `changeMonth` calls `setMonth(getMonth() + delta)` on the current date, keeping its day | on 31 January 2025, "next month" lands on 3 March 2025 and the calendar shows March | the calendar moves by exactly one month | not executed | Calendar.ChangeMonthAsWritten, Calendar.NextFromJanuary31SkipsFebruary | Calendar.ChangeMonth |
