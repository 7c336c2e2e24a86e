/**
 * The resume builder's browser-side records: the detected document
 * languages, the accepted upload types, the document version history, the
 * registered interviews, the summaries table and the FAQ search.
 */
module Documents {
  import opened Lists
  import opened Text

  // ---------------------------------------------------- detected language

  /** The `detectedLanguage` record, as its JSON fields. */
  type LanguageRecord = map<string, string>

  /**
   * `saveDetectedLanguage`: a resume sets `resume_language` and
   * `resume_language_code`, a job description `job_language` and
   * `job_language_code`; any other type leaves the record as it was.
   */
  function SaveDetectedLanguage(rec: LanguageRecord, docType: string, language: string, code: string)
    : (r: LanguageRecord)
    ensures docType == "resume" ==>
      r.Keys == rec.Keys + {"resume_language", "resume_language_code"}
      && r["resume_language"] == language && r["resume_language_code"] == code
    ensures docType == "job" ==>
      r.Keys == rec.Keys + {"job_language", "job_language_code"}
      && r["job_language"] == language && r["job_language_code"] == code
    ensures docType != "resume" && docType != "job" ==> r == rec
    ensures forall k :: k in rec && !IsLanguageKey(docType, k) ==> k in r && r[k] == rec[k]
  {
    if docType == "resume" then rec["resume_language" := language]["resume_language_code" := code]
    else if docType == "job" then rec["job_language" := language]["job_language_code" := code]
    else rec
  }

  /** The two fields a document type writes. */
  predicate IsLanguageKey(docType: string, k: string)
  {
    || (docType == "resume" && (k == "resume_language" || k == "resume_language_code"))
    || (docType == "job" && (k == "job_language" || k == "job_language_code"))
  }

  /** Saving the resume's language and the job description's language do
      not interfere: either order gives the same record. */
  lemma LanguagesIndependent(rec: LanguageRecord, rl: string, rc: string, jl: string, jc: string)
    ensures SaveDetectedLanguage(SaveDetectedLanguage(rec, "resume", rl, rc), "job", jl, jc)
         == SaveDetectedLanguage(SaveDetectedLanguage(rec, "job", jl, jc), "resume", rl, rc)
  {
  }

  // --------------------------------------------------------- upload check

  /** The upload types accepted. */
  const ValidTypes: seq<string> := [".pdf", ".doc", ".docx", ".txt"]

  /** `'.' + name.split('.').pop().toLowerCase()`. */
  function Extension(name: string): (r: string)
    ensures |r| >= 1 && r[0] == '.'
    ensures '.' !in r[1..]
  {
    var parts := Split(name, '.');
    SplitPiecesFree(name, '.');
    var last := parts[|parts| - 1];
    assert '.' !in last;
    var r := "." + Lower(last);
    assert r[1..] == Lower(last);
    r
  }

  /** The extension is the lower-cased text after the last dot. */
  lemma ExtensionAfterLastDot(base: string, ext: string)
    requires '.' !in ext
    ensures Extension(base + "." + ext) == "." + Lower(ext)
  {
    assert base + "." + ext == base + ['.'] + ext;
    SplitLastPiece(base, '.', ext);
  }

  /** A name without any dot is read as an extension of its own. */
  lemma ExtensionWithoutDot(name: string)
    requires '.' !in name
    ensures Extension(name) == "." + Lower(name)
  {
    SplitFree(name, '.');
  }

  /** What `handleFiles` does with the files dropped or chosen. */
  datatype Upload = NoFile | Rejected(name: string) | Accepted(name: string)

  /**
   * `handleFiles`: nothing for an empty selection; otherwise the first
   * file is accepted (and uploaded) exactly when its extension is one of
   * the valid types.
   */
  function HandleFiles(files: seq<string>): (r: Upload)
    ensures |files| == 0 <==> r == NoFile
    ensures |files| > 0 ==> r.name == files[0]
    ensures r.Accepted? <==> |files| > 0 && Extension(files[0]) in ValidTypes
  {
    if |files| == 0 then NoFile
    else if Extension(files[0]) in ValidTypes then Accepted(files[0])
    else Rejected(files[0])
  }

  /** The extension check ignores case: `cv.PDF` is accepted, whatever
      else was selected with it. */
  lemma UploadIgnoresCase(rest: seq<string>)
    ensures HandleFiles(["cv.PDF"] + rest) == Accepted("cv.PDF")
  {
    ExtensionAfterLastDot("cv", "PDF");
    assert "cv" + "." + "PDF" == "cv.PDF";
    assert Lower("PDF") == "pdf";
    assert Extension("cv.PDF") == ".pdf";
    assert ValidTypes[0] == ".pdf";
    assert (["cv.PDF"] + rest)[0] == "cv.PDF";
  }

  /** A name with no dot at all is accepted when it spells a valid type:
      a file named `txt` is taken for a text file. */
  lemma UploadBareName(rest: seq<string>)
    ensures HandleFiles(["txt"] + rest) == Accepted("txt")
  {
    ExtensionWithoutDot("txt");
    assert Lower("txt") == "txt";
    assert Extension("txt") == ".txt";
    assert ValidTypes[3] == ".txt";
    assert (["txt"] + rest)[0] == "txt";
  }

  /** Other types are refused. */
  lemma UploadRejectsOthers(rest: seq<string>)
    ensures HandleFiles(["notes.md"] + rest) == Rejected("notes.md")
  {
    ExtensionAfterLastDot("notes", "md");
    assert "notes" + "." + "md" == "notes.md";
    assert Lower("md") == "md";
  }

  // -------------------------------------------------------------- versions

  /** A file version records its byte count; a text version a label. */
  datatype Size = Bytes(count: nat) | Label(text: string)

  /** One entry of `documentVersions`. */
  datatype DocVersion = DocVersion(docType: string, name: string, size: Size, path: string, date: string)

  /** `storeFileVersion`: appends the uploaded file's entry. */
  function StoreFileVersion(vs: seq<DocVersion>, docType: string, fileName: string, fileSize: nat,
                            filePath: string, now: string): (r: seq<DocVersion>)
    ensures |r| == |vs| + 1 && r[..|vs|] == vs
    ensures r[|vs|] == DocVersion(docType, fileName, Bytes(fileSize), filePath, now)
  {
    vs + [DocVersion(docType, fileName, Bytes(fileSize), filePath, now)]
  }

  /** The label of a pasted text's size. */
  function CharsLabel(n: nat): string
  {
    NatToString(n) + " chars"
  }

  /**
   * `storeTextVersion`: appends an entry for pasted text, named after its
   * type, sized in characters and stored at path `text`.
   */
  function StoreTextVersion(vs: seq<DocVersion>, text: string, docType: string, now: string): (r: seq<DocVersion>)
    ensures |r| == |vs| + 1 && r[..|vs|] == vs
    ensures r[|vs|].docType == docType && r[|vs|].path == "text" && r[|vs|].date == now
    ensures r[|vs|].name == if docType == "job" then "Job Description (Text)" else "Resume (Text)"
    ensures r[|vs|].size.Label?
  {
    var name := if docType == "job" then "Job Description (Text)" else "Resume (Text)";
    vs + [DocVersion(docType, name, Label(CharsLabel(|text|)), "text", now)]
  }

  /** The size label of a text version reads back as the text's length. */
  lemma TextSizeReadsBack(vs: seq<DocVersion>, text: string, docType: string, now: string)
    ensures var sizeText := StoreTextVersion(vs, text, docType, now)[|vs|].size.text;
      var words := Split(sizeText, ' ');
      && |words| == 2 && words[1] == "chars"
      && (forall i :: 0 <= i < |words[0]| ==> IsDigit(words[0][i]))
      && ParseDecimal(words[0]) == |text|
  {
    assert CharsLabel(|text|) == NatToString(|text|) + " " + "chars";
    CountAndWord(|text|, "chars");
  }

  /** A view of a stored list: the empty-state placeholder, or rows. */
  datatype View<T> = EmptyState | Rows(rows: seq<Shown<T>>)

  /** Whether the view shows its "clear all" button. */
  predicate ClearAllShown<T>(v: View<T>)
  {
    v.Rows?
  }

  /** The rows of a "most recent first" table showing at most `n` entries. */
  function Recent<T>(s: seq<T>, n: nat): (v: View<T>)
    requires n > 0
    ensures v.EmptyState? <==> |s| == 0
    ensures v.Rows? ==> v.rows == RecentFirst(s, n) && 0 < |v.rows| <= n
  {
    if |s| == 0 then EmptyState else Rows(RecentFirst(s, n))
  }

  /** `updateVersionsDisplay`: the six most recent versions, newest first. */
  function VersionsView(vs: seq<DocVersion>): (v: View<DocVersion>)
    ensures v.EmptyState? <==> |vs| == 0
    ensures v.Rows? ==> |v.rows| == Min(6, |vs|)
  {
    Recent(vs, 6)
  }

  /** `deleteVersion` / `deleteInterview`: after the confirmation prompt,
      removes the entry at `index` (JavaScript `splice(index, 1)`). */
  function DeleteAt<T>(s: seq<T>, index: int, confirmed: bool): (r: seq<T>)
    ensures !confirmed ==> r == s
    ensures confirmed && 0 <= index < |s| ==> multiset(r) + multiset{s[index]} == multiset(s)
    ensures confirmed && 0 <= index < |s| ==> r == s[..index] + s[index + 1..]
    ensures confirmed && index >= |s| ==> r == s
  {
    if !confirmed then s
    else
      if 0 <= index < |s| then
        SpliceOneRemovesExactly(s, index);
        assert SpliceOne(s, index) == s[..index] + s[index + 1..];
        SpliceOne(s, index)
      else SpliceOne(s, index)
  }

  /** The delete button of the d-th row removes exactly the entry that row
      shows, and the list shrinks by one. */
  lemma DeleteShownRow<T>(s: seq<T>, n: nat, d: nat)
    requires n > 0 && Recent(s, n).Rows? && d < |Recent(s, n).rows|
    ensures var row := Recent(s, n).rows[d];
      && |DeleteAt(s, row.actualIndex, true)| == |s| - 1
      && multiset(DeleteAt(s, row.actualIndex, true)) + multiset{row.item} == multiset(s)
  {
    RecentFirstIndexes(s, n);
  }

  // ------------------------------------------------------------ interviews

  /** One entry of `savedInterviews`. */
  datatype SavedInterview = SavedInterview(company: string, position: string, date: string, status: string)

  predicate SameRole(i: SavedInterview, company: string, position: string)
  {
    i.company == company && i.position == position
  }

  /** No two saved interviews are for the same company and position. */
  predicate NoRepeatedRoles(list: seq<SavedInterview>)
  {
    forall i, j :: 0 <= i < j < |list| ==> !SameRole(list[j], list[i].company, list[i].position)
  }

  predicate Registered(list: seq<SavedInterview>, company: string, position: string)
  {
    exists i :: 0 <= i < |list| && SameRole(list[i], company, position)
  }

  /**
   * `addInterviewToList`: a company and position already registered leave
   * the list as it is; otherwise a pending entry is appended.
   */
  function AddInterview(list: seq<SavedInterview>, company: string, position: string, now: string)
    : (r: seq<SavedInterview>)
    ensures Registered(list, company, position) ==> r == list
    ensures !Registered(list, company, position) ==>
      r == list + [SavedInterview(company, position, now, "Pending")]
    ensures Registered(r, company, position)
    ensures NoRepeatedRoles(list) ==> NoRepeatedRoles(r)
  {
    if Registered(list, company, position) then list
    else
      var r := list + [SavedInterview(company, position, now, "Pending")];
      assert SameRole(r[|list|], company, position);
      r
  }

  /** Registering the same role again changes nothing, whatever the time. */
  lemma AddInterviewIdempotent(list: seq<SavedInterview>, company: string, position: string, t1: string, t2: string)
    ensures var once := AddInterview(list, company, position, t1);
      AddInterview(once, company, position, t2) == once
  {
  }

  /** `updateInterviewsTable`: the ten most recent interviews, newest first. */
  function InterviewsView(list: seq<SavedInterview>): (v: View<SavedInterview>)
    ensures v.EmptyState? <==> |list| == 0
    ensures v.Rows? ==> |v.rows| == Min(10, |list|)
  {
    Recent(list, 10)
  }

  // -------------------------------------------------------------- summaries

  /** The summary preview: the first 100 characters and an ellipsis when
      longer, the whole text otherwise. */
  function Preview(s: string): (r: string)
    ensures |s| <= 100 ==> r == s
    ensures |s| > 100 ==> |r| == 103 && r[..100] == s[..100] && r[100..] == "..."
  {
    if |s| > 100 then s[..100] + "..." else s
  }

  /** A summary row of the table. */
  datatype SummaryRow = SummaryRow(kind: string, full: string, preview: string)

  /** A summary is listed when it is present, not the loading text and not
      the server's "not found" message. */
  predicate Listed(summary: Option<string>, notFound: string)
  {
    summary.Some? && summary.value != "" && summary.value != "Loading..." && !Contains(summary.value, notFound)
  }

  /**
   * `updateSummariesTable`: a resume row, then a job row, each only when
   * its summary is listed; the "clear all" button shows exactly when some
   * row does.
   */
  function SummaryRows(resume: Option<string>, job: Option<string>): (r: seq<SummaryRow>)
    ensures |r| <= 2
    ensures (|r| > 0) <==> Listed(resume, "No resume found") || Listed(job, "No job description found")
    ensures forall i :: 0 <= i < |r| ==> r[i].preview == Preview(r[i].full)
    ensures Listed(resume, "No resume found") ==> r[0] == SummaryRow("resume", resume.value, Preview(resume.value))
    ensures Listed(job, "No job description found") ==>
      r[|r| - 1] == SummaryRow("job", job.value, Preview(job.value))
    ensures !Listed(resume, "No resume found") ==> forall i :: 0 <= i < |r| ==> r[i].kind == "job"
  {
    var a := if Listed(resume, "No resume found")
      then [SummaryRow("resume", resume.value, Preview(resume.value))] else [];
    var b := if Listed(job, "No job description found")
      then [SummaryRow("job", job.value, Preview(job.value))] else [];
    a + b
  }

  // ------------------------------------------------------------------- FAQ

  datatype Faq = Faq(question: string, answer: string)

  predicate FaqMatches(f: Faq, term: string)
  {
    Contains(Lower(f.question), Lower(term)) || Contains(Lower(f.answer), Lower(term))
  }

  /**
   * `renderFaqItems`' filter: every entry for an empty search term;
   * otherwise the entries whose question or answer contains the term,
   * ignoring case, in their original order.
   */
  function FilterFaqs(faqs: seq<Faq>, term: string): (r: seq<Faq>)
    ensures term == "" ==> r == faqs
    ensures forall i :: 0 <= i < |r| ==> r[i] in faqs && FaqMatches(r[i], term)
    ensures forall i :: 0 <= i < |faqs| && FaqMatches(faqs[i], term) ==> faqs[i] in r
    ensures forall i :: 0 <= i < |faqs| && FaqMatches(faqs[i], term) ==>
      multiset(r)[faqs[i]] == multiset(faqs)[faqs[i]]
    ensures IsSubseq(r, faqs)
  {
    if term == "" then
      assert forall i :: 0 <= i < |faqs| ==> faqs[i] in faqs;
      assert forall i :: 0 <= i < |faqs| ==> FaqMatches(faqs[i], term) by {
        forall i | 0 <= i < |faqs|
          ensures FaqMatches(faqs[i], term)
        {
          assert OccursAt(Lower(faqs[i].question), Lower(term), 0);
        }
      }
      assert IsSubseq(Filter((f: Faq) => FaqMatches(f, term), faqs), faqs);
      SubseqRefl(faqs);
      faqs
    else
      FilterCounts((f: Faq) => FaqMatches(f, term), faqs);
      Filter((f: Faq) => FaqMatches(f, term), faqs)
  }

  lemma {:induction false} SubseqRefl<T>(s: seq<T>)
    ensures IsSubseq(s, s)
    decreases |s|
  {
    if |s| > 0 {
      SubseqRefl(s[1..]);
    }
  }

  /** Typing more narrows the results: every entry found for a longer
      term is found for any part of it. */
  lemma FaqNarrowing(faqs: seq<Faq>, term: string, part: string)
    requires Contains(term, part)
    ensures forall i :: 0 <= i < |FilterFaqs(faqs, term)| ==> FilterFaqs(faqs, term)[i] in FilterFaqs(faqs, part)
  {
    var r := FilterFaqs(faqs, term);
    LowerContains(term, part);
    forall i | 0 <= i < |r|
      ensures r[i] in FilterFaqs(faqs, part)
    {
      var f := r[i];
      if Contains(Lower(f.question), Lower(term)) {
        ContainsTrans(Lower(f.question), Lower(term), Lower(part));
      } else {
        ContainsTrans(Lower(f.answer), Lower(term), Lower(part));
      }
      var k :| 0 <= k < |faqs| && faqs[k] == f;
    }
  }
}
