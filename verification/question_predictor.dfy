/**
 * The interview question predictor (`QuestionPredictor` in
 * copilot/pattern_analyzer.py): job-requirement extraction from a job
 * description, topic classification of a question, depth scoring of an
 * answer, and the prediction of up to three next questions, either from the
 * job requirements or from a fixed graph of topics.
 *
 * Confidences are integer hundredths (0.85 is 85); the depth score is a
 * `real`. The metric regular expression of `analyze_depth` is an oracle
 * boolean, and the keyword-replacement translation into Portuguese or
 * French is an oracle function (`Rewriter`).
 */
module QuestionPredictor {
  import opened Lists
  import opened Text

  // ------------------------------------------------------------ job skills

  datatype Priority = High | Normal

  /** One requirement extracted from a job description. */
  datatype Requirement = Requirement(skill: string, questions: seq<string>, priority: Priority)

  /** One entry of the skills table: its key, display name, question
      templates and the keywords that reveal it in a job description. */
  datatype Skill = Skill(key: string, name: string, questions: seq<string>, keywords: seq<string>)

  const HighPriorityKeys: set<string> := {"python", "sql", "etl"}

  const SkillsTable: seq<Skill> := [
    Skill("python", "Python",
      ["Can you describe your experience with Python?",
       "What Python libraries have you worked with?",
       "How would you optimize Python code for performance?"],
      ["python", "pandas", "numpy", "django", "flask", "pyspark"]),
    Skill("sql", "SQL",
      ["What's your experience with SQL?",
       "Can you write a complex SQL query to solve this problem?",
       "How do you optimize slow SQL queries?"],
      ["sql", "mysql", "postgresql", "oracle", "sql server", "query"]),
    Skill("etl", "ETL",
      ["Describe an ETL pipeline you've built",
       "How do you handle ETL failures and retries?",
       "What tools do you use for ETL development?"],
      ["etl", "data pipeline", "data integration", "extract transform load"]),
    Skill("spark", "Apache Spark",
      ["What's your experience with Apache Spark?",
       "How do you optimize Spark jobs?",
       "Explain Spark's execution model"],
      ["spark", "pyspark", "apache spark", "rdd", "dataframe"]),
    Skill("airflow", "Apache Airflow",
      ["How do you structure Airflow DAGs?",
       "Describe your experience with Airflow",
       "How do you handle task dependencies in Airflow?"],
      ["airflow", "apache airflow", "dag", "workflow orchestration"]),
    Skill("aws", "AWS",
      ["Which AWS services have you used?",
       "How do you architect data solutions on AWS?",
       "Describe your experience with AWS data services"],
      ["aws", "s3", "redshift", "glue", "lambda", "ec2", "emr"]),
    Skill("azure", "Azure",
      ["What Azure services have you worked with?",
       "Describe your experience with Azure data platform",
       "How do you implement data solutions on Azure?"],
      ["azure", "azure synapse", "data factory", "azure sql"]),
    Skill("gcp", "Google Cloud Platform",
      ["What GCP services have you used?",
       "Describe your experience with GCP data tools",
       "How do you build data pipelines on GCP?"],
      ["gcp", "google cloud", "bigquery", "dataflow", "cloud composer"]),
    Skill("databricks", "Databricks",
      ["What's your experience with Databricks?",
       "How do you use Databricks for data engineering?",
       "Describe a Databricks project you've worked on"],
      ["databricks", "delta lake", "databricks sql"]),
    Skill("kafka", "Kafka",
      ["Describe your experience with Kafka",
       "How do you handle streaming data with Kafka?",
       "What's your approach to Kafka monitoring?"],
      ["kafka", "streaming", "event streaming", "message queue"]),
    Skill("docker", "Docker",
      ["How do you use Docker in data engineering?",
       "Describe your experience with containerization",
       "How do you optimize Docker images?"],
      ["docker", "container", "containerization"]),
    Skill("kubernetes", "Kubernetes",
      ["What's your experience with Kubernetes?",
       "How do you deploy data applications on K8s?",
       "Describe a Kubernetes architecture you've implemented"],
      ["kubernetes", "k8s", "orchestration"]),
    Skill("data_warehouse", "Data Warehousing",
      ["What's your experience with data warehousing?",
       "How do you design a data warehouse?",
       "Describe dimensional modeling approaches you've used"],
      ["data warehouse", "data warehousing", "dimensional modeling", "star schema"]),
    Skill("machine_learning", "Machine Learning",
      ["What ML models have you built?",
       "How do you approach feature engineering?",
       "Describe your ML deployment experience"],
      ["machine learning", "ml", "model", "scikit-learn", "tensorflow", "pytorch"]),
    Skill("power_bi", "Power BI",
      ["What's your experience with Power BI?",
       "How do you design effective dashboards?",
       "Describe a Power BI project you've delivered"],
      ["power bi", "powerbi", "dax", "power query"]),
    Skill("tableau", "Tableau",
      ["Describe your experience with Tableau",
       "How do you optimize Tableau dashboards?",
       "What visualization best practices do you follow?"],
      ["tableau", "data visualization"]),
    Skill("dbt", "dbt",
      ["What's your experience with dbt?",
       "How do you structure dbt projects?",
       "Describe your dbt testing strategy"],
      ["dbt", "data build tool", "transformation"])
  ]

  /** Python `any(keyword in text for keyword in keywords)`. */
  predicate AnyKeywordIn(keywords: seq<string>, text: string)
  {
    exists k :: 0 <= k < |keywords| && Contains(text, keywords[k])
  }

  function RequirementOf(sk: Skill): Requirement
  {
    Requirement(sk.name, sk.questions, if sk.key in HighPriorityKeys then High else Normal)
  }

  predicate Mentioned(job: string, sk: Skill)
  {
    AnyKeywordIn(sk.keywords, Lower(job))
  }

  /** `q` is the requirement of a skill of `table` that `job` mentions. */
  predicate RequiredBy(table: seq<Skill>, job: string, q: Requirement)
  {
    exists sk :: sk in table && Mentioned(job, sk) && q == RequirementOf(sk)
  }

  /** The loop of `_extract_job_requirements` over a skills table. */
  function SelectRequirements(table: seq<Skill>, job: string): (r: seq<Requirement>)
    ensures forall i :: 0 <= i < |table| && Mentioned(job, table[i]) ==> RequirementOf(table[i]) in r
    ensures forall k :: 0 <= k < |r| ==> RequiredBy(table, job, r[k])
  {
    if |table| == 0 then []
    else
      var rest := SelectRequirements(table[1..], job);
      assert forall i :: 1 <= i < |table| ==> table[i] == table[1..][i - 1];
      assert forall sk :: sk in table[1..] ==> sk in table;
      assert table[0] in table;
      if Mentioned(job, table[0]) then
        var r := [RequirementOf(table[0])] + rest;
        assert forall k :: 1 <= k < |r| ==> r[k] == rest[k - 1];
        r
      else rest
  }

  /** The selection keeps table order. */
  lemma {:induction false} SelectRequirementsOrdered(table: seq<Skill>, job: string)
    ensures IsSubseq(SelectRequirements(table, job), Map(RequirementOf, table))
  {
    if |table| > 0 {
      var rest := SelectRequirements(table[1..], job);
      SelectRequirementsOrdered(table[1..], job);
      MapCons(RequirementOf, table);
      SubseqDropFront(rest, Map(RequirementOf, table));
    }
  }

  /**
   * `_extract_job_requirements`: the requirement of every skill one of whose
   * keywords occurs in the lower-cased job text, each with high priority
   * exactly when its key is python, sql or etl; nothing for an empty text.
   */
  function ExtractRequirements(job: string): (r: seq<Requirement>)
    ensures job == "" ==> r == []
    ensures forall i :: 0 <= i < |SkillsTable| && job != "" && Mentioned(job, SkillsTable[i]) ==>
      RequirementOf(SkillsTable[i]) in r
    ensures forall k :: 0 <= k < |r| ==> RequiredBy(SkillsTable, job, r[k])
  {
    if job == "" then [] else SelectRequirements(SkillsTable, job)
  }

  /** The extracted requirements follow skills-table order. */
  lemma ExtractRequirementsOrdered(job: string)
    ensures IsSubseq(ExtractRequirements(job), Map(RequirementOf, SkillsTable))
  {
    if job != "" {
      SelectRequirementsOrdered(SkillsTable, job);
    }
  }

  /** Every skill of the table carries three question templates. */
  lemma SkillsTableQuestions()
    ensures forall i :: 0 <= i < |SkillsTable| ==> |SkillsTable[i].questions| == 3
  {
  }

  // ---------------------------------------------------------------- topics

  const TopicKeywords: seq<(string, seq<string>)> := [
    ("etl", ["etl", "extract", "transform", "load"]),
    ("data_quality", ["data quality", "validation", "data integrity", "accuracy"]),
    ("pipeline", ["pipeline", "workflow", "data flow"]),
    ("airflow", ["airflow", "dag", "orchestration"]),
    ("spark", ["spark", "pyspark", "rdd", "dataframe"]),
    ("sql", ["sql", "query", "select", "join", "database"]),
    ("python", ["python", "lambda", "decorator", "list comprehension"]),
    ("machine_learning", ["machine learning", "ml", "model", "prediction", "training"]),
    ("aws", ["aws", "s3", "ec2", "lambda", "glue", "redshift"]),
    ("docker", ["docker", "container", "dockerfile"]),
    ("challenge", ["challenge", "difficult", "problem", "issue", "overcome"]),
    ("teamwork", ["team", "collaboration", "work with", "communicate"]),
    ("project", ["project", "built", "developed", "implemented"])
  ]

  const General: string := "general"

  predicate TopicHits(i: nat, text: string)
    requires i < |TopicKeywords|
  {
    AnyKeywordIn(TopicKeywords[i].1, text)
  }

  /** The first topic from index `from` on whose keywords hit `text`. */
  function FirstTopicFrom(text: string, from: nat): (r: string)
    requires from <= |TopicKeywords|
    ensures r == General <==> forall j :: from <= j < |TopicKeywords| ==> !TopicHits(j, text)
    ensures r != General ==> exists i :: (from <= i < |TopicKeywords| && TopicKeywords[i].0 == r
      && TopicHits(i, text) && forall j :: from <= j < i ==> !TopicHits(j, text))
    decreases |TopicKeywords| - from
  {
    if from == |TopicKeywords| then General
    else if TopicHits(from, text) then TopicKeywords[from].0
    else FirstTopicFrom(text, from + 1)
  }

  /**
   * `extract_topic`: the first topic, in table order, one of whose keywords
   * occurs in the lower-cased question; "general" when none does.
   */
  function ExtractTopic(question: string): (r: string)
    ensures r == General <==> forall j :: 0 <= j < |TopicKeywords| ==> !TopicHits(j, Lower(question))
    ensures r != General ==> exists i :: (0 <= i < |TopicKeywords| && TopicKeywords[i].0 == r
      && TopicHits(i, Lower(question)) && forall j :: 0 <= j < i ==> !TopicHits(j, Lower(question)))
  {
    FirstTopicFrom(Lower(question), 0)
  }

  // ----------------------------------------------------------------- depth

  const TechnicalTerms: seq<string> := [
    "architecture", "optimization", "performance", "scalability",
    "implementation", "algorithm", "framework", "infrastructure",
    "distributed", "parallel", "concurrent", "asynchronous"
  ]

  const ExperienceIndicators: seq<string> :=
    ["i built", "i used", "i implemented", "i developed", "in my project"]

  /** How many of `terms` occur in `text`. */
  function CountPresent(terms: seq<string>, text: string): (r: nat)
    ensures r <= |terms|
    ensures r == 0 <==> forall k :: 0 <= k < |terms| ==> !Contains(text, terms[k])
  {
    if |terms| == 0 then 0
    else CountPresent(terms[..|terms| - 1], text) + (if Contains(text, terms[|terms| - 1]) then 1 else 0)
  }

  function MinReal(a: real, b: real): real { if a <= b then a else b }

  predicate HasExperience(answer: string)
  {
    AnyKeywordIn(ExperienceIndicators, Lower(answer))
  }

  /**
   * `analyze_depth`: 0.3 for length (saturating at 200 words), 0.3 for
   * technical terms (saturating at 5), 0.2 for an experience phrase and 0.2
   * for a metric, capped at 1. `hasMetrics` stands for the regular
   * expression test on the lower-cased answer.
   */
  function AnalyzeDepth(answer: string, hasMetrics: bool): (r: real)
    ensures answer == "" ==> r == 0.0
    ensures 0.0 <= r <= 1.0
    ensures answer != "" && (hasMetrics || HasExperience(answer)) ==> r >= 0.2
    ensures answer != "" && hasMetrics && HasExperience(answer) ==> r >= 0.4
  {
    if answer == "" then 0.0
    else
      var lengthScore := MinReal(WordCount(answer) as real / 200.0, 1.0);
      var termScore := MinReal(CountPresent(TechnicalTerms, Lower(answer)) as real / 5.0, 1.0);
      var score := lengthScore * 0.3 + termScore * 0.3
        + (if HasExperience(answer) then 0.2 else 0.0)
        + (if hasMetrics then 0.2 else 0.0);
      MinReal(score, 1.0)
  }

  /** A metric mention never lowers the depth score. */
  lemma DepthMonotoneInMetrics(answer: string)
    ensures AnalyzeDepth(answer, false) <= AnalyzeDepth(answer, true)
  {
  }

  /** `depth_level < 0.6`: the answer counts as superficial. */
  predicate Shallow(depth: real) { depth < 0.6 }

  // --------------------------------------------------------- topic graph

  datatype TopicNode = TopicNode(followUps: seq<string>, related: seq<string>)

  type Graph = map<string, TopicNode>

  const DefaultGraph: Graph := map[
    "etl" := TopicNode(
      ["Can you describe a specific ETL pipeline you've built?",
       "How do you handle errors and failures in ETL processes?",
       "What tools do you prefer for ETL and why?"],
      ["data_quality", "pipeline", "airflow"]),
    "data_quality" := TopicNode(
      ["How do you ensure data quality in your pipelines?",
       "Can you describe a time when you caught a data quality issue?",
       "What metrics do you use to monitor data quality?"],
      ["testing", "validation", "monitoring"]),
    "pipeline" := TopicNode(
      ["How do you handle pipeline failures and retries?",
       "What's your approach to pipeline monitoring?",
       "How do you optimize pipeline performance?"],
      ["airflow", "orchestration", "scalability"]),
    "airflow" := TopicNode(
      ["How do you structure your Airflow DAGs?",
       "What challenges have you faced with Airflow?",
       "How do you handle dependencies between tasks?"],
      ["orchestration", "scheduling", "pipeline"]),
    "spark" := TopicNode(
      ["Can you explain how Spark's distributed processing works?",
       "How do you optimize Spark jobs for performance?",
       "What challenges have you faced with Spark?"],
      ["big_data", "distributed_systems", "performance"]),
    "sql" := TopicNode(
      ["Can you write a query to solve this problem?",
       "How would you optimize a slow-running query?",
       "What's the difference between JOIN types?"],
      ["database", "optimization", "indexing"]),
    "python" := TopicNode(
      ["Can you explain decorators in Python?",
       "How does Python's memory management work?",
       "What's the difference between list and tuple?"],
      ["programming", "data_structures", "algorithms"]),
    "machine_learning" := TopicNode(
      ["How do you handle overfitting in ML models?",
       "Can you explain the bias-variance tradeoff?",
       "What metrics do you use to evaluate model performance?"],
      ["modeling", "evaluation", "deployment"]),
    "aws" := TopicNode(
      ["Which AWS services have you used for data pipelines?",
       "How do you manage costs in AWS?",
       "Can you explain the difference between S3 storage classes?"],
      ["cloud", "infrastructure", "s3"]),
    "docker" := TopicNode(
      ["How do you use Docker in data engineering?",
       "What's the difference between Docker and Kubernetes?",
       "How do you optimize Docker images?"],
      ["containers", "deployment", "devops"]),
    "challenge" := TopicNode(
      ["What did you learn from that experience?",
       "How did you resolve the issue?",
       "What would you do differently next time?"],
      ["teamwork", "problem_solving"]),
    "teamwork" := TopicNode(
      ["How do you handle disagreements with team members?",
       "Can you describe your ideal team structure?",
       "How do you mentor junior engineers?"],
      ["leadership", "communication"]),
    "project" := TopicNode(
      ["What was the most challenging part of that project?",
       "What was the impact of that project?",
       "What technologies did you use and why?"],
      ["technical_details", "impact", "decisions"])
  ]

  const GenericFollowUps: seq<string> := [
    "Can you provide a specific example from your experience?",
    "What challenges did you face and how did you overcome them?",
    "How would you approach this differently with hindsight?"
  ]

  /** `get_deeper_questions`: the topic's follow-ups, or the generic ones. */
  function DeeperQuestions(g: Graph, topic: string): (r: seq<string>)
    ensures topic in g ==> r == g[topic].followUps
    ensures topic !in g ==> r == GenericFollowUps
  {
    if topic in g then g[topic].followUps else GenericFollowUps
  }

  /** A related topic contributes a question when it is in the graph and
      has at least one follow-up. */
  predicate Contributes(g: Graph, t: string)
  {
    t in g && |g[t].followUps| > 0
  }

  function FirstFollowUp(g: Graph, t: string): string
  {
    if Contributes(g, t) then g[t].followUps[0] else ""
  }

  /** `q` is the first follow-up of one of the contributing topics of `related`. */
  predicate LeadsOff(g: Graph, related: seq<string>, q: string)
  {
    exists t :: t in related && Contributes(g, t) && q == FirstFollowUp(g, t)
  }

  /** The loop of `get_related_topics` over a list of related topics. */
  function FirstFollowUps(g: Graph, related: seq<string>): (r: seq<string>)
    ensures |r| <= |related|
    ensures forall k :: 0 <= k < |r| ==> LeadsOff(g, related, r[k])
    ensures (forall i :: 0 <= i < |related| ==> Contributes(g, related[i])) ==> |r| == |related|
  {
    if |related| == 0 then []
    else
      var rest := FirstFollowUps(g, related[1..]);
      assert forall t :: t in related[1..] ==> t in related;
      assert related[0] in related;
      if Contributes(g, related[0]) then
        var r := [FirstFollowUp(g, related[0])] + rest;
        assert forall k :: 1 <= k < |r| ==> r[k] == rest[k - 1];
        r
      else rest
  }

  /** The loop agrees with the reference reading: map "first follow-up"
      over the contributing related topics, in order. */
  lemma {:induction false} FirstFollowUpsIsFilterMap(g: Graph, related: seq<string>)
    ensures FirstFollowUps(g, related)
         == Map((t: string) => FirstFollowUp(g, t), Filter((t: string) => Contributes(g, t), related))
  {
    var f := (t: string) => FirstFollowUp(g, t);
    var keep := (t: string) => Contributes(g, t);
    if |related| > 0 {
      FirstFollowUpsIsFilterMap(g, related[1..]);
      var tail := Filter(keep, related[1..]);
      if keep(related[0]) {
        assert Filter(keep, related) == [related[0]] + tail;
        MapCons(f, [related[0]] + tail);
        assert ([related[0]] + tail)[1..] == tail;
      } else {
        assert Filter(keep, related) == tail;
      }
    }
  }

  /**
   * `get_related_topics`: nothing for a topic outside the graph; otherwise
   * the first follow-up of each related topic that is in the graph.
   */
  function RelatedQuestions(g: Graph, topic: string): (r: seq<string>)
    ensures topic !in g ==> r == []
    ensures topic in g ==> |r| <= |g[topic].related|
    ensures topic in g ==> forall k :: 0 <= k < |r| ==> LeadsOff(g, g[topic].related, r[k])
  {
    if topic !in g then [] else FirstFollowUps(g, g[topic].related)
  }

  /** `add_custom_pattern`: sets (or replaces) one topic's entry. */
  function AddCustomPattern(g: Graph, topic: string, followUps: seq<string>, related: seq<string>): (r: Graph)
    ensures r.Keys == g.Keys + {topic}
    ensures r[topic] == TopicNode(followUps, related)
    ensures forall t :: t in g && t != topic ==> r[t] == g[t]
  {
    g[topic := TopicNode(followUps, related)]
  }

  /** After adding a pattern, its follow-ups are the deeper questions of
      that topic and its related topics drive the related questions. */
  lemma CustomPatternUsed(g: Graph, topic: string, followUps: seq<string>, related: seq<string>)
    ensures DeeperQuestions(AddCustomPattern(g, topic, followUps, related), topic) == followUps
    ensures var g' := AddCustomPattern(g, topic, followUps, related);
      RelatedQuestions(g', topic) == FirstFollowUps(g', related)
  {
  }

  // ------------------------------------------------------------ translation

  /** The chained case-insensitive phrase replacement for a supported
      language: (language, text) to translated text. */
  type Rewriter = (string, string) -> string

  const TranslatedLanguages: set<string> := {"Portuguese", "French"}

  /** `translate_question`: English and unknown languages pass through. */
  function Translate(text: string, language: string, rewrite: Rewriter): (r: string)
    ensures language !in TranslatedLanguages ==> r == text
  {
    if language == "English" || language !in TranslatedLanguages then text
    else rewrite(language, text)
  }

  // ------------------------------------------------------------ predictions

  datatype Kind = FollowUp | RelatedTopic

  /** One predicted question; `confidence` is in hundredths. */
  datatype Prediction = Prediction(question: string, confidence: int, kind: Kind, reason: string)

  datatype HistoryEntry = HistoryEntry(question: string, topic: string)

  /** The predictor object's state. */
  datatype Predictor = Predictor(
    graph: Graph,
    currentTopic: Option<string>,
    history: seq<HistoryEntry>,
    jobDescription: string,
    requirements: seq<Requirement>,
    covered: set<string>)

  /** `QuestionPredictor.__init__`. */
  function NewPredictor(job: string): (p: Predictor)
    ensures p.graph == DefaultGraph && p.history == [] && p.covered == {} && p.currentTopic == None
    ensures p.requirements == ExtractRequirements(job)
    ensures job == "" ==> p.requirements == []
  {
    Predictor(DefaultGraph, None, [], job, ExtractRequirements(job), {})
  }

  /** Questions `qs` ranked from confidence `start`, dropping `step` per
      position, all of one kind and reason. */
  function Ranked(qs: seq<string>, start: int, step: int, kind: Kind, reason: string,
                  language: string, rewrite: Rewriter): (r: seq<Prediction>)
    ensures |r| == |qs|
    ensures forall i :: 0 <= i < |qs| ==>
      r[i] == Prediction(Translate(qs[i], language, rewrite), start - step * i, kind, reason)
  {
    seq(|qs|, i requires 0 <= i < |qs| =>
      Prediction(Translate(qs[i], language, rewrite), start - step * i, kind, reason))
  }

  /** The fallback path of `predict_next_questions`, before the cut to 3. */
  function FallbackPredictions(g: Graph, topic: string, depth: real, language: string,
                               rewrite: Rewriter): seq<Prediction>
  {
    if Shallow(depth) then
      Ranked(DeeperQuestions(g, topic), 85, 10, FollowUp,
        Translate("Digging deeper into your answer", language, rewrite), language, rewrite)
    else
      var related := Ranked(RelatedQuestions(g, topic), 75, 10, RelatedTopic,
        Translate("Moving to related topic", language, rewrite), language, rewrite);
      var deeper := DeeperQuestions(g, topic);
      if |deeper| > 0 && |related| < 3 then
        related + [Prediction(Translate(deeper[0], language, rewrite), 60, FollowUp,
                              Translate("Possible deeper dive", language, rewrite))]
      else related
  }

  /** `skill.lower().replace(' ', '_')`: the key a requirement is covered by. */
  function SkillKey(skill: string): (r: string)
    ensures |r| == |skill|
    ensures ' ' !in r
  {
    var low := Lower(skill);
    seq(|low|, i requires 0 <= i < |low| => if low[i] == ' ' then '_' else low[i])
  }

  /** Whether the lower-cased skill name occurs in the lower-cased question or answer. */
  predicate Mentions(req: Requirement, question: string, answer: string)
  {
    Contains(Lower(question), Lower(req.skill)) || Contains(Lower(answer), Lower(req.skill))
  }

  /** The first requirement whose skill is mentioned in the question or answer. */
  function CurrentRequirement(reqs: seq<Requirement>, question: string, answer: string): (r: Option<Requirement>)
    ensures r.Some? ==> exists i ::
      && 0 <= i < |reqs| && reqs[i] == r.value
      && Mentions(reqs[i], question, answer)
      && forall j :: 0 <= j < i ==> !Mentions(reqs[j], question, answer)
    ensures r.None? <==> forall k :: 0 <= k < |reqs| ==> !Mentions(reqs[k], question, answer)
  {
    if |reqs| == 0 then None
    else if Mentions(reqs[0], question, answer) then Some(reqs[0])
    else
      var r := CurrentRequirement(reqs[1..], question, answer);
      assert forall k :: 1 <= k < |reqs| ==> reqs[k] == reqs[1..][k - 1];
      if r.Some? then
        var i :| 0 <= i < |reqs| - 1 && reqs[1..][i] == r.value
          && Mentions(reqs[1..][i], question, answer)
          && forall j :: 0 <= j < i ==> !Mentions(reqs[1..][j], question, answer);
        assert reqs[i + 1] == r.value && Mentions(reqs[i + 1], question, answer);
        r
      else r
  }

  /** A requirement's question templates other than the question just asked. */
  function Remaining(req: Requirement, question: string): (r: seq<string>)
    ensures forall k :: 0 <= k < |r| ==> r[k] in req.questions && r[k] != question
    ensures IsSubseq(r, req.questions)
  {
    Filter((q: string) => q != question, req.questions)
  }

  predicate Uncovered(covered: set<string>, req: Requirement)
  {
    SkillKey(req.skill) !in covered
  }

  /** The uncovered requirements of one priority, in their original order. */
  function Pending(reqs: seq<Requirement>, covered: set<string>, level: Priority): (r: seq<Requirement>)
    ensures forall k :: 0 <= k < |r| ==> r[k] in reqs && Uncovered(covered, r[k]) && r[k].priority == level
    ensures forall k :: 0 <= k < |reqs| && Uncovered(covered, reqs[k]) && reqs[k].priority == level ==> reqs[k] in r
    ensures IsSubseq(r, reqs)
  {
    if |reqs| == 0 then []
    else
      var rest := Pending(reqs[1..], covered, level);
      assert forall k :: 1 <= k < |reqs| ==> reqs[k] == reqs[1..][k - 1];
      if Uncovered(covered, reqs[0]) && reqs[0].priority == level then
        var r := [reqs[0]] + rest;
        assert r[1..] == rest;
        r
      else
        SubseqDropFront(rest, reqs);
        rest
  }

  /** Uncovered high-priority requirements, then uncovered normal ones. */
  function Prioritized(reqs: seq<Requirement>, covered: set<string>): seq<Requirement>
  {
    Pending(reqs, covered, High) + Pending(reqs, covered, Normal)
  }

  /** Every prioritized requirement is uncovered, and no normal-priority one
      comes before a high-priority one. */
  lemma PrioritizedOrder(reqs: seq<Requirement>, covered: set<string>)
    ensures forall k :: 0 <= k < |Prioritized(reqs, covered)| ==>
      Prioritized(reqs, covered)[k] in reqs && Uncovered(covered, Prioritized(reqs, covered)[k])
    ensures forall i, j :: 0 <= i < j < |Prioritized(reqs, covered)| ==>
      !(Prioritized(reqs, covered)[i].priority == Normal && Prioritized(reqs, covered)[j].priority == High)
  {
    var hi := Pending(reqs, covered, High);
    var lo := Pending(reqs, covered, Normal);
    var pr := hi + lo;
    forall k | 0 <= k < |pr|
      ensures pr[k] in reqs && Uncovered(covered, pr[k])
      ensures k < |hi| ==> pr[k].priority == High
      ensures k >= |hi| ==> pr[k].priority == Normal
    {
      ConcatIndex(hi, lo, k);
    }
  }

  /** The question a requirement is opened with; none when it has no questions. */
  function FirstQuestion(req: Requirement): string
  {
    if |req.questions| > 0 then req.questions[0] else ""
  }

  /** The prediction made for the requirement at position `i` of the
      prioritized list. */
  function LeadOf(ps: seq<Requirement>, i: nat, language: string, rewrite: Rewriter): Prediction
    requires i < |ps| && |ps[i].questions| > 0
  {
    Prediction(Translate(ps[i].questions[0], language, rewrite), 88 - 8 * i, RelatedTopic,
               "Job requirement: " + ps[i].skill)
  }

  /** `p` is the prediction of some requirement at or after `from` that has questions. */
  predicate LeadFrom(ps: seq<Requirement>, from: nat, language: string, rewrite: Rewriter, p: Prediction)
  {
    exists i :: from <= i < |ps| && |ps[i].questions| > 0 && p == LeadOf(ps, i, language, rewrite)
  }

  /** The loop over `prioritized_requirements[:3]` from position `from`:
      the first question of each requirement that has one, with confidence
      88 - 8 * position. */
  function LeadPredictions(ps: seq<Requirement>, from: nat, language: string, rewrite: Rewriter): (r: seq<Prediction>)
    requires from <= |ps|
    ensures |r| <= |ps| - from
    ensures forall k :: 0 <= k < |r| ==> r[k].kind == RelatedTopic
    ensures forall k :: 0 <= k < |r| ==> LeadFrom(ps, from, language, rewrite, r[k])
    ensures (forall i :: from <= i < |ps| ==> |ps[i].questions| > 0) ==>
      |r| == |ps| - from && forall k :: 0 <= k < |r| ==> r[k] == LeadOf(ps, from + k, language, rewrite)
    decreases |ps| - from
  {
    if from == |ps| then []
    else
      var rest := LeadPredictions(ps, from + 1, language, rewrite);
      assert forall p :: LeadFrom(ps, from + 1, language, rewrite, p) ==> LeadFrom(ps, from, language, rewrite, p);
      if |ps[from].questions| > 0 then
        var r := [LeadOf(ps, from, language, rewrite)] + rest;
        assert forall k :: 1 <= k < |r| ==> r[k] == rest[k - 1];
        r
      else rest
  }

  /** `_predict_from_job_requirements`. */
  function JobPredictions(reqs: seq<Requirement>, covered: set<string>, depth: real,
                          question: string, answer: string, language: string,
                          rewrite: Rewriter): (r: seq<Prediction>)
    ensures |r| <= 3
  {
    var current := CurrentRequirement(reqs, question, answer);
    if Shallow(depth) && current.Some? then
      var req := current.value;
      Ranked(Take(Remaining(req, question), 3), 90, 5, FollowUp,
        "Required skill: " + req.skill, language, rewrite)
    else
      var leads := LeadPredictions(Take(Prioritized(reqs, covered), 3), 0, language, rewrite);
      WithDeeperDive(leads, current, question, language, rewrite)
  }

  /** The leading predictions topped up to three with "deeper dive"
      follow-ups on the current requirement, when there is one. */
  function WithDeeperDive(leads: seq<Prediction>, current: Option<Requirement>, question: string,
                          language: string, rewrite: Rewriter): (r: seq<Prediction>)
    requires |leads| <= 3
    ensures |leads| <= |r| <= 3 && r[..|leads|] == leads
    ensures forall i :: |leads| <= i < |r| ==> r[i].kind == FollowUp && r[i].confidence == 75
    ensures current.None? ==> r == leads
    ensures forall i :: |leads| <= i < |r| ==>
      exists q :: q in current.value.questions && q != question && r[i].question == Translate(q, language, rewrite)
  {
    if |leads| < 3 && current.Some? then
      var req := current.value;
      var rem := Take(Remaining(req, question), 3 - |leads|);
      var tail := Ranked(rem, 75, 0, FollowUp, "Deeper dive: " + req.skill, language, rewrite);
      var r := leads + tail;
      assert forall i :: |leads| <= i < |r| ==> r[i] == tail[i - |leads|];
      assert forall i :: 0 <= i < |rem| ==> rem[i] == Remaining(req, question)[i];
      r
    else leads
  }

  /** The result of one `predict_next_questions` call. */
  datatype Step = Step(predictor: Predictor, predictions: seq<Prediction>)

  /**
   * `predict_next_questions`: records the question and its topic, marks a
   * non-general topic covered, then predicts from the job requirements when
   * there are any and they yield something, and from the topic graph
   * otherwise; at most three predictions are returned.
   */
  function PredictNext(p: Predictor, question: string, answer: string, language: string,
                       hasMetrics: bool, rewrite: Rewriter): (s: Step)
    ensures |s.predictions| <= 3
    ensures s.predictor.history == p.history + [HistoryEntry(question, ExtractTopic(question))]
    ensures s.predictor.currentTopic == Some(ExtractTopic(question))
    ensures ExtractTopic(question) == General ==> s.predictor.covered == p.covered
    ensures ExtractTopic(question) != General ==> s.predictor.covered == p.covered + {ExtractTopic(question)}
    ensures s.predictor.graph == p.graph && s.predictor.requirements == p.requirements
    ensures s.predictor.jobDescription == p.jobDescription
  {
    var topic := ExtractTopic(question);
    var covered := if topic != General then p.covered + {topic} else p.covered;
    var p' := p.(currentTopic := Some(topic),
                 history := p.history + [HistoryEntry(question, topic)],
                 covered := covered);
    var depth := AnalyzeDepth(answer, hasMetrics);
    var fromJob := if |p.requirements| > 0
      then JobPredictions(p.requirements, covered, depth, question, answer, language, rewrite)
      else [];
    if |fromJob| > 0 then Step(p', fromJob)
    else Step(p', Take(FallbackPredictions(p.graph, topic, depth, language, rewrite), 3))
  }

  // ----------------------------------------------- properties of the paths

  /** Whether a call takes the fallback path (no requirements, or the
      requirements produced nothing). */
  predicate UsesFallback(p: Predictor, question: string, answer: string, language: string,
                         hasMetrics: bool, rewrite: Rewriter)
  {
    var topic := ExtractTopic(question);
    var covered := if topic != General then p.covered + {topic} else p.covered;
    |p.requirements| == 0
      || |JobPredictions(p.requirements, covered, AnalyzeDepth(answer, hasMetrics), question, answer,
                         language, rewrite)| == 0
  }

  /** Fallback, superficial answer: every prediction is a follow-up on the
      question's own topic, the i-th at confidence 85 - 10 i. */
  lemma FallbackShallowAnswer(p: Predictor, question: string, answer: string, language: string,
                              hasMetrics: bool, rewrite: Rewriter)
    requires UsesFallback(p, question, answer, language, hasMetrics, rewrite)
    requires Shallow(AnalyzeDepth(answer, hasMetrics))
    ensures var ps := PredictNext(p, question, answer, language, hasMetrics, rewrite).predictions;
      var deeper := DeeperQuestions(p.graph, ExtractTopic(question));
      && |ps| == Min(3, |deeper|)
      && forall i :: 0 <= i < |ps| ==>
        && ps[i].kind == FollowUp
        && ps[i].confidence == 85 - 10 * i
        && ps[i].question == Translate(deeper[i], language, rewrite)
  {
    FallbackPath(p, question, answer, language, hasMetrics, rewrite);
  }

  /** Fallback, detailed answer: related-topic questions first at
      75 - 10 i, and one follow-up at 60 only when fewer than three related
      questions exist. */
  lemma FallbackDeepAnswer(p: Predictor, question: string, answer: string, language: string,
                           hasMetrics: bool, rewrite: Rewriter)
    requires UsesFallback(p, question, answer, language, hasMetrics, rewrite)
    requires !Shallow(AnalyzeDepth(answer, hasMetrics))
    ensures var ps := PredictNext(p, question, answer, language, hasMetrics, rewrite).predictions;
      var topic := ExtractTopic(question);
      var related := RelatedQuestions(p.graph, topic);
      var deeper := DeeperQuestions(p.graph, topic);
      && (forall i :: 0 <= i < |ps| && i < |related| ==>
            ps[i].kind == RelatedTopic && ps[i].confidence == 75 - 10 * i
            && ps[i].question == Translate(related[i], language, rewrite))
      && (|related| < 3 && |deeper| > 0 <==> |ps| == |related| + 1)
      && (|ps| == |related| + 1 ==>
            ps[|related|].kind == FollowUp && ps[|related|].confidence == 60
            && ps[|related|].question == Translate(deeper[0], language, rewrite))
      && (|ps| != |related| + 1 ==> |ps| == Min(3, |related|))
  {
    FallbackPath(p, question, answer, language, hasMetrics, rewrite);
    FallbackDeepShape(p.graph, ExtractTopic(question), AnalyzeDepth(answer, hasMetrics), language, rewrite);
  }

  /** On the fallback path the predictions are the first three fallback ones. */
  lemma FallbackPath(p: Predictor, question: string, answer: string, language: string,
                     hasMetrics: bool, rewrite: Rewriter)
    requires UsesFallback(p, question, answer, language, hasMetrics, rewrite)
    ensures PredictNext(p, question, answer, language, hasMetrics, rewrite).predictions
         == Take(FallbackPredictions(p.graph, ExtractTopic(question), AnalyzeDepth(answer, hasMetrics),
                                     language, rewrite), 3)
  {
  }

  /** Off the fallback path, the result is the non-empty job-requirement
      prediction, made with the question's topic already counted as covered. */
  lemma JobPath(p: Predictor, question: string, answer: string, language: string,
                hasMetrics: bool, rewrite: Rewriter)
    requires !UsesFallback(p, question, answer, language, hasMetrics, rewrite)
    ensures var s := PredictNext(p, question, answer, language, hasMetrics, rewrite);
      && |p.requirements| > 0
      && 0 < |s.predictions| <= 3
      && s.predictions == JobPredictions(p.requirements, s.predictor.covered, AnalyzeDepth(answer, hasMetrics),
                                         question, answer, language, rewrite)
  {
  }

  /** The fallback predictions for a detailed answer: the related-topic
      questions, then one follow-up when fewer than three related ones exist. */
  lemma FallbackDeepShape(g: Graph, topic: string, depth: real, language: string, rewrite: Rewriter)
    requires !Shallow(depth)
    ensures var fs := FallbackPredictions(g, topic, depth, language, rewrite);
      var related := RelatedQuestions(g, topic);
      var deeper := DeeperQuestions(g, topic);
      var extra := |related| < 3 && |deeper| > 0;
      && |fs| == |related| + (if extra then 1 else 0)
      && (forall i :: 0 <= i < |related| ==>
            fs[i].kind == RelatedTopic && fs[i].confidence == 75 - 10 * i
            && fs[i].question == Translate(related[i], language, rewrite))
      && (extra ==>
            fs[|related|].kind == FollowUp && fs[|related|].confidence == 60
            && fs[|related|].question == Translate(deeper[0], language, rewrite))
  {
    var fs := FallbackPredictions(g, topic, depth, language, rewrite);
    var related := RelatedQuestions(g, topic);
    var ranked := Ranked(related, 75, 10, RelatedTopic,
      Translate("Moving to related topic", language, rewrite), language, rewrite);
    var deeper := DeeperQuestions(g, topic);
    if |deeper| > 0 && |related| < 3 {
      var tail := [Prediction(Translate(deeper[0], language, rewrite), 60, FollowUp,
                              Translate("Possible deeper dive", language, rewrite))];
      assert fs == ranked + tail;
      forall i | 0 <= i <= |related|
        ensures fs[i] == if i < |related| then ranked[i] else tail[0]
      {
        ConcatIndex(ranked, tail, i);
      }
    } else {
      assert fs == ranked;
    }
  }

  /** Job path, superficial answer about a known requirement: up to three
      other questions of that requirement, at 90 - 5 i. */
  lemma JobShallowAnswer(reqs: seq<Requirement>, covered: set<string>, depth: real,
                         question: string, answer: string, language: string, rewrite: Rewriter)
    requires Shallow(depth)
    requires CurrentRequirement(reqs, question, answer).Some?
    ensures var ps := JobPredictions(reqs, covered, depth, question, answer, language, rewrite);
      var req := CurrentRequirement(reqs, question, answer).value;
      && |ps| == Min(3, |Remaining(req, question)|)
      && forall i :: 0 <= i < |ps| ==>
        && ps[i].kind == FollowUp
        && ps[i].confidence == 90 - 5 * i
        && ps[i].reason == "Required skill: " + req.skill
        && exists q :: q in req.questions && q != question && ps[i].question == Translate(q, language, rewrite)
  {
    var req := CurrentRequirement(reqs, question, answer).value;
    var rem := Take(Remaining(req, question), 3);
    var ps := JobPredictions(reqs, covered, depth, question, answer, language, rewrite);
    forall i | 0 <= i < |ps|
      ensures exists q :: q in req.questions && q != question && ps[i].question == Translate(q, language, rewrite)
    {
      assert rem[i] == Remaining(req, question)[i];
      assert ps[i].question == Translate(rem[i], language, rewrite);
    }
  }

  /** Job path otherwise: the leading predictions come from uncovered
      requirements (high priority first) at 88 - 8 i; the rest, if any, are
      follow-ups on the current requirement at 75; never more than three. */
  lemma JobDeepAnswer(reqs: seq<Requirement>, covered: set<string>, depth: real,
                      question: string, answer: string, language: string, rewrite: Rewriter)
    requires !(Shallow(depth) && CurrentRequirement(reqs, question, answer).Some?)
    requires forall k :: 0 <= k < |reqs| ==> |reqs[k].questions| > 0
    ensures var ps := JobPredictions(reqs, covered, depth, question, answer, language, rewrite);
      var lead := Take(Prioritized(reqs, covered), 3);
      && |ps| <= 3
      && |lead| <= |ps|
      && (forall i :: 0 <= i < |lead| ==>
            ps[i].kind == RelatedTopic && ps[i].confidence == 88 - 8 * i
            && ps[i].question == Translate(FirstQuestion(lead[i]), language, rewrite)
            && Uncovered(covered, lead[i]))
      && (forall i :: |lead| <= i < |ps| ==> ps[i].kind == FollowUp && ps[i].confidence == 75)
      && (CurrentRequirement(reqs, question, answer).None? ==> |ps| == |lead|)
  {
    var lead := Take(Prioritized(reqs, covered), 3);
    var leads := LeadPredictions(lead, 0, language, rewrite);
    var current := CurrentRequirement(reqs, question, answer);
    DeepLeads(reqs, covered, language, rewrite);
    JobDeepIsDeeperDive(reqs, covered, depth, question, answer, language, rewrite);
    var ps := WithDeeperDive(leads, current, question, language, rewrite);
    forall i | 0 <= i < |leads|
      ensures ps[i] == leads[i]
    {
      assert ps[i] == ps[..|leads|][i];
    }
  }

  /** Off the superficial-answer path, the job predictions are the leads
      topped up with deeper-dive follow-ups. */
  lemma JobDeepIsDeeperDive(reqs: seq<Requirement>, covered: set<string>, depth: real,
                            question: string, answer: string, language: string, rewrite: Rewriter)
    requires !(Shallow(depth) && CurrentRequirement(reqs, question, answer).Some?)
    ensures |LeadPredictions(Take(Prioritized(reqs, covered), 3), 0, language, rewrite)| <= 3
    ensures JobPredictions(reqs, covered, depth, question, answer, language, rewrite)
         == WithDeeperDive(LeadPredictions(Take(Prioritized(reqs, covered), 3), 0, language, rewrite),
                           CurrentRequirement(reqs, question, answer), question, language, rewrite)
  {
  }

  /** The leading predictions of the job path: one per top-ranked
      requirement, in rank order, at 88 - 8 i. */
  lemma DeepLeads(reqs: seq<Requirement>, covered: set<string>, language: string, rewrite: Rewriter)
    requires forall k :: 0 <= k < |reqs| ==> |reqs[k].questions| > 0
    ensures var lead := Take(Prioritized(reqs, covered), 3);
      var leads := LeadPredictions(lead, 0, language, rewrite);
      && |leads| == |lead|
      && forall i :: 0 <= i < |lead| ==>
            leads[i].kind == RelatedTopic && leads[i].confidence == 88 - 8 * i
            && leads[i].question == Translate(FirstQuestion(lead[i]), language, rewrite)
            && Uncovered(covered, lead[i])
  {
    PrioritizedOrder(reqs, covered);
    var pr := Prioritized(reqs, covered);
    var lead := Take(pr, 3);
    assert forall i :: 0 <= i < |lead| ==> lead[i] == pr[i] && lead[i] in reqs;
    assert forall i :: 0 <= i < |lead| ==> |lead[i].questions| > 0;
    var leads := LeadPredictions(lead, 0, language, rewrite);
    assert |leads| == |lead|;
    forall i | 0 <= i < |lead|
      ensures leads[i].kind == RelatedTopic && leads[i].confidence == 88 - 8 * i
      ensures leads[i].question == Translate(FirstQuestion(lead[i]), language, rewrite)
      ensures Uncovered(covered, lead[i])
    {
      assert leads[i] == LeadOf(lead, i, language, rewrite);
      assert lead[i] == pr[i];
    }
  }

  /** Every requirement extracted from a job description has questions, so
      the job path ranks every leading requirement. */
  lemma ExtractedRequirementsHaveQuestions(job: string)
    ensures forall k :: 0 <= k < |ExtractRequirements(job)| ==> |ExtractRequirements(job)[k].questions| == 3
  {
    var r := ExtractRequirements(job);
    forall k | 0 <= k < |r|
      ensures |r[k].questions| == 3
    {
      assert RequiredBy(SkillsTable, job, r[k]);
      var sk :| sk in SkillsTable && Mentioned(job, sk) && r[k] == RequirementOf(sk);
      SkillsTableQuestions();
    }
  }
}
