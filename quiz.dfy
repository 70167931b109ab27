/** `generate_mcqs`: clamp the requested count, sanitize the candidate questions of
    a model reply, pad with placeholders, and fall back to a fixed quiz when the
    backend is absent or anything raises. */
module Quiz {
  import opened Wrappers
  import opened PyText
  import opened Json
  import opened Extract

  /** One emitted question record: `{"question", "choices", "answer_index"}`. */
  datatype Question = Question(question: string, choices: seq<string>, answerIndex: int)

  /** The outcome of the single backend call. `Unavailable`: no client or no API
      key, so no call is made. `CallFailed`: the call raised. `Replied`: the
      message content of the first choice, which may be `None`. */
  datatype Backend = Unavailable | CallFailed | Replied(content: Option<string>)

  const PlaceholderChoices: seq<string> := ["Option A", "Option B", "Option C", "Option D"]

  /** The shape every emitted question has: a non-empty trimmed text, exactly four
      choices and an answer index in [0,3]. */
  predicate WellFormed(q: Question) {
    && Trimmed(q.question)
    && |q.choices| == 4
    && 0 <= q.answerIndex <= 3
  }

  function Min(a: int, b: int): int { if a < b then a else b }
  function Max(a: int, b: int): int { if a < b then b else a }

  /** `max(1, min(int(num_q), 10))`. */
  function ClampCount(n: int): (k: int)
    ensures 1 <= k <= 10
    ensures 1 <= n <= 10 ==> k == n
    ensures n < 1 ==> k == 1
    ensures n > 10 ==> k == 10
  {
    Max(1, Min(n, 10))
  }

  /** `max(0, min(ai, 3))`. */
  function ClampIndex(ai: int): (r: int)
    ensures 0 <= r <= 3
    ensures 0 <= ai <= 3 ==> r == ai
    ensures ai < 0 ==> r == 0
    ensures ai > 3 ==> r == 3
  {
    Max(0, Min(ai, 3))
  }

  // ---------------- one candidate ----------------

  /** `str(q.get("question", "")).strip()`: blank or trimmed, and never blank for a
      value that is neither a string nor a float. */
  function QuestionText(fields: seq<(string, Value)>): (r: string)
    ensures r == [] || Trimmed(r)
    ensures !Get(fields, "question", Str("")).Str? && !Get(fields, "question", Str("")).Float? ==> r != []
  {
    Strip(ToText(Get(fields, "question", Str(""))))
  }

  /** `q.get("choices") or []`: the `or []` never changes whether it is a list of four. */
  function ChoicesValue(fields: seq<(string, Value)>): (r: Value)
    ensures (r.List? && |r.items| == 4) <==>
            (Get(fields, "choices", Null).List? && |Get(fields, "choices", Null).items| == 4)
    ensures r.List? && r.items != [] ==> r == Get(fields, "choices", Null)
  {
    Or(Get(fields, "choices", Null), List([]))
  }

  /** The test at line 95, negated: a non-blank question and a list of exactly four choices. */
  predicate Accepted(fields: seq<(string, Value)>)
    ensures Accepted(fields) <==>
            QuestionText(fields) != [] &&
            Get(fields, "choices", Null).List? && |Get(fields, "choices", Null).items| == 4
  {
    QuestionText(fields) != [] && ChoicesValue(fields).List? && |ChoicesValue(fields).items| == 4
  }

  /** `int(q.get("answer_index", 0))`, 0 where `int` raises, then clamped. */
  function AnswerIndex(fields: seq<(string, Value)>): (r: int)
    ensures 0 <= r <= 3
    ensures ToInt(Get(fields, "answer_index", Int(0))).None? ==> r == 0
    ensures ToInt(Get(fields, "answer_index", Int(0))).Some? ==>
              r == ClampIndex(ToInt(Get(fields, "answer_index", Int(0))).value)
  {
    var coerced := ToInt(Get(fields, "answer_index", Int(0)));
    ClampIndex(if coerced.Some? then coerced.value else 0)
  }

  /** A string question is blank exactly when it is all whitespace. */
  lemma QuestionTextOfString(fields: seq<(string, Value)>, s: string)
    requires Get(fields, "question", Str("")) == Str(s)
    ensures QuestionText(fields) == [] <==> AllSpace(s)
  {
  }

  /** The defaults of `dict.get` for a candidate without the key: a blank
      question, no choices, and answer index 0. */
  lemma MissingFields(fields: seq<(string, Value)>)
    ensures (forall i :: 0 <= i < |fields| ==> fields[i].0 != "question") ==> QuestionText(fields) == []
    ensures (forall i :: 0 <= i < |fields| ==> fields[i].0 != "choices") ==> ChoicesValue(fields) == List([])
    ensures (forall i :: 0 <= i < |fields| ==> fields[i].0 != "answer_index") ==> AnswerIndex(fields) == 0
  {
  }

  /** The answer index by the kind of value stored: `None`, a list or a dict and
      text `int` rejects all give 0, a bool gives 0 or 1, a number is truncated
      toward zero and clamped. */
  lemma AnswerIndexByKind(fields: seq<(string, Value)>, v: Value)
    requires Get(fields, "answer_index", Int(0)) == v
    ensures v.Null? || v.List? || v.Obj? ==> AnswerIndex(fields) == 0
    ensures v.Str? && ParseInt(v.s).None? ==> AnswerIndex(fields) == 0
    ensures v.Str? && AllSpace(v.s) ==> AnswerIndex(fields) == 0
    ensures v.Bool? ==> AnswerIndex(fields) == (if v.b then 1 else 0)
    ensures v.Int? ==> AnswerIndex(fields) == ClampIndex(v.i)
    ensures v.Float? ==> AnswerIndex(fields) == ClampIndex(Truncate(v.x))
  {
  }

  /** An index sent as the decimal text of an integer counts as that integer. */
  lemma AnswerIndexFromText(fields: seq<(string, Value)>, n: int)
    requires Get(fields, "answer_index", Int(0)) == Str(IntText(n))
    ensures AnswerIndex(fields) == ClampIndex(n)
  {
    ParseIntText(n);
  }

  /** `[str(c) for c in choices]`. */
  function ChoiceTexts(items: seq<Value>): (r: seq<string>)
    ensures |r| == |items|
    ensures forall i :: 0 <= i < |items| && items[i].Str? ==> r[i] == items[i].s
  {
    seq(|items|, i requires 0 <= i < |items| => ToText(items[i]))
  }

  /** What the loop body does with one candidate: raise (not a dict), skip it, or keep a record. */
  datatype Verdict = NotADict | Skip | Keep(q: Question)

  function Examine(c: Value): (r: Verdict)
    ensures r.NotADict? <==> !c.Obj?
    ensures r.Keep? <==> c.Obj? && Accepted(c.fields)
    ensures r.Keep? ==> WellFormed(r.q)
  {
    match c
    case Obj(fields) =>
      if Accepted(fields) then
        var text := QuestionText(fields);
        Keep(Question(text, ChoiceTexts(ChoicesValue(fields).items), AnswerIndex(fields)))
      else
        Skip
    case _ => NotADict
  }

  /** The answer index is never a reason to drop a question: whatever value
      `answer_index` has, the keep-or-skip decision is the same. */
  lemma AnswerIndexNeverRejects(fields: seq<(string, Value)>, v: Value)
    ensures Examine(Obj(fields)).Keep? == Examine(Obj([("answer_index", v)] + fields)).Keep?
  {
    var f := [("answer_index", v)] + fields;
    assert f[1..] == fields;
    assert Get(f, "question", Str("")) == Get(fields, "question", Str(""));
    assert Get(f, "choices", Null) == Get(fields, "choices", Null);
  }

  /** A kept record's index is the clamped integer: an index of 5 becomes 3, -2 becomes 0. */
  lemma KeptIndexClamped(fields: seq<(string, Value)>, n: int)
    requires Accepted(fields)
    requires Get(fields, "answer_index", Int(0)) == Int(n)
    ensures Examine(Obj(fields)).q.answerIndex == ClampIndex(n)
    ensures n > 3 ==> Examine(Obj(fields)).q.answerIndex == 3
    ensures n < 0 ==> Examine(Obj(fields)).q.answerIndex == 0
  {
  }

  /** `str(None)` is `"None"`, and no number, boolean, list or dict renders blank:
      a question given as such a value is never dropped for its text. */
  lemma NonTextQuestionNotBlank(fields: seq<(string, Value)>)
    requires var v := Get(fields, "question", Str("")); !v.Str? && !v.Float?
    ensures QuestionText(fields) != []
    ensures Get(fields, "question", Str("")) == Null ==> QuestionText(fields) == "None"
  {
    var v := Get(fields, "question", Str(""));
    if v == Null {
      StripUnchanged("None");
    }
  }

  // ---------------- the sanitize loop ----------------

  /** A verdict sequence whose kept records are all well-formed. */
  predicate Sound(vs: seq<Verdict>) {
    forall i :: 0 <= i < |vs| && vs[i].Keep? ==> WellFormed(vs[i].q)
  }

  /** The loop body's verdict on each candidate, in order. */
  function Verdicts(cs: seq<Value>): (vs: seq<Verdict>)
    ensures |vs| == |cs| && Sound(vs)
    ensures forall i :: 0 <= i < |cs| ==> (vs[i].NotADict? <==> !cs[i].Obj?)
  {
    seq(|cs|, i requires 0 <= i < |cs| => Examine(cs[i]))
  }

  /** One pass of the loop body on the accumulated records. */
  function Step(acc: Option<seq<Question>>, v: Verdict): Option<seq<Question>> {
    match acc
    case None => None
    case Some(prev) =>
      match v
      case NotADict => None
      case Skip => Some(prev)
      case Keep(q) => Some(prev + [q])
  }

  /** What the loop accumulates from a sequence of verdicts: `None` once a
      candidate raises, otherwise the kept records in order. */
  function Collect(vs: seq<Verdict>): (r: Option<seq<Question>>)
    ensures r.None? <==> exists i :: 0 <= i < |vs| && vs[i].NotADict?
    ensures r.Some? ==> |r.value| <= |vs|
    ensures r.Some? && Sound(vs) ==> forall j :: 0 <= j < |r.value| ==> WellFormed(r.value[j])
  {
    if vs == [] then Some([])
    else
      var init := vs[..|vs| - 1];
      assert forall i :: 0 <= i < |init| ==> init[i] == vs[i];
      Step(Collect(init), vs[|vs| - 1])
  }

  lemma PrefixSnoc<T>(s: seq<T>, i: nat)
    requires i < |s|
    ensures s[..i + 1] == s[..i] + [s[i]]
  {
  }

  /** Extending the verdicts by one runs the loop body once more. */
  lemma CollectSnoc(vs: seq<Verdict>, v: Verdict)
    ensures Collect(vs + [v]) == Step(Collect(vs), v)
  {
    assert (vs + [v])[..|vs|] == vs;
  }

  /** The records the loop at lines 92-106 builds from the candidates `cs` it looks
      at, or `None` when one of them is not a dict and `q.get` raises. */
  function Cleaned(cs: seq<Value>): (r: Option<seq<Question>>)
    ensures r.None? <==> exists i :: 0 <= i < |cs| && !cs[i].Obj?
    ensures r.Some? ==> |r.value| <= |cs|
    ensures r.Some? ==> forall j :: 0 <= j < |r.value| ==> WellFormed(r.value[j])
  {
    var vs := Verdicts(cs);
    assert (exists i :: 0 <= i < |vs| && vs[i].NotADict?) <==> (exists i :: 0 <= i < |cs| && !cs[i].Obj?);
    Collect(vs)
  }

  /** The positions of the kept verdicts, in increasing order. */
  function KeptPositions(vs: seq<Verdict>): (idx: seq<nat>)
    ensures forall j :: 0 <= j < |idx| ==> idx[j] < |vs| && vs[idx[j]].Keep?
    ensures forall j, k :: 0 <= j < k < |idx| ==> idx[j] < idx[k]
    ensures forall i :: 0 <= i < |vs| && vs[i].Keep? ==> i in idx
  {
    if vs == [] then []
    else
      var init := vs[..|vs| - 1];
      assert forall i :: 0 <= i < |init| ==> init[i] == vs[i];
      KeptPositions(init) + (if vs[|vs| - 1].Keep? then [|vs| - 1] else [])
  }

  /** The loop keeps exactly the accepted candidates, in input order: the j-th
      record is the one built from the j-th kept position. */
  lemma {:induction false} CollectKeepsInOrder(vs: seq<Verdict>)
    requires Collect(vs).Some?
    ensures |Collect(vs).value| == |KeptPositions(vs)|
    ensures forall j :: 0 <= j < |KeptPositions(vs)| ==>
              Collect(vs).value[j] == vs[KeptPositions(vs)[j]].q
  {
    if vs != [] {
      var n := |vs| - 1;
      var init := vs[..n];
      assert vs == init + [vs[n]];
      CollectSnoc(init, vs[n]);
      assert Collect(init).Some?;
      CollectKeepsInOrder(init);
      var prev, idx := KeptPositions(init), KeptPositions(vs);
      assert forall i :: 0 <= i < |init| ==> init[i] == vs[i];
      assert idx == prev + (if vs[n].Keep? then [n] else []);
    }
  }

  /** The loop at lines 91-106 over the first `numQ` candidates. */
  method Sanitize(candidates: seq<Value>, numQ: nat) returns (cleaned: Option<seq<Question>>)
    ensures cleaned == Cleaned(candidates[..Min(numQ, |candidates|)])
    ensures cleaned.Some? ==> |cleaned.value| <= numQ
  {
    var examined := candidates[..Min(numQ, |candidates|)];
    ghost var vs := Verdicts(examined);
    var out: seq<Question> := [];
    var i := 0;
    while i < |examined|
      invariant 0 <= i <= |examined|
      invariant Collect(vs[..i]) == Some(out)
    {
      var v := Examine(examined[i]);
      assert vs[i] == v;
      PrefixSnoc(vs, i);
      CollectSnoc(vs[..i], v);
      match v {
        case NotADict =>
          // `q.get` raises AttributeError: the exception leaves the loop
          assert vs[i].NotADict?;
          return None;
        case Skip =>
        case Keep(q) =>
          out := out + [q];
      }
      i := i + 1;
    }
    assert vs[..i] == vs;
    cleaned := Some(out);
  }

  // ---------------- placeholders, padding, fallback ----------------

  /** `f"{title} Question {k}? ({language})"` with the four fixed options and index 0. */
  function Placeholder(title: string, k: nat, language: string): (q: Question)
    requires title != [] && !IsSpace(title[0])
    ensures WellFormed(q)
  {
    var text := title + " Question " + NatText(k) + "? (" + language + ")";
    Question(text, PlaceholderChoices, 0)
  }

  /** The padding record numbered `k` (line 110). */
  function Dummy(k: nat, language: string): (q: Question)
    ensures WellFormed(q) && q.choices == PlaceholderChoices && q.answerIndex == 0
  {
    Placeholder("Dummy", k, language)
  }

  /** The fallback record numbered `k` (line 126). */
  function Sample(k: nat, language: string): (q: Question)
    ensures WellFormed(q) && q.choices == PlaceholderChoices && q.answerIndex == 0
  {
    Placeholder("Sample", k, language)
  }

  /** `cleaned` padded with dummy records up to `numQ`: the records keep their
      places and each dummy is numbered by its 1-based position. */
  function Padded(cleaned: seq<Question>, numQ: nat, language: string): (r: seq<Question>)
    ensures |r| == Max(|cleaned|, numQ)
    ensures r[..|cleaned|] == cleaned
    ensures forall j :: |cleaned| <= j < |r| ==> r[j] == Dummy(j + 1, language)
  {
    if |cleaned| < numQ then
      cleaned + seq(numQ - |cleaned|, j requires 0 <= j < numQ - |cleaned| =>
                      Dummy(|cleaned| + j + 1, language))
    else
      cleaned
  }

  /** A list that already holds `num_q` records is not padded. */
  lemma PaddedFull(cleaned: seq<Question>, numQ: nat, language: string)
    requires numQ <= |cleaned|
    ensures Padded(cleaned, numQ, language) == cleaned
  {
    var r := Padded(cleaned, numQ, language);
    assert |r| == |cleaned|;
    assert r == r[..|cleaned|];
  }

  /** The `while len(cleaned) < num_q` loop at lines 108-113. */
  method Pad(cleaned: seq<Question>, numQ: nat, language: string) returns (r: seq<Question>)
    ensures r == Padded(cleaned, numQ, language)
  {
    r := cleaned;
    while |r| < numQ
      invariant |cleaned| <= |r| <= Max(|cleaned|, numQ)
      invariant r[..|cleaned|] == cleaned
      invariant forall j :: |cleaned| <= j < |r| ==> r[j] == Dummy(j + 1, language)
      decreases numQ - |r|
    {
      r := r + [Dummy(|r| + 1, language)];
    }
    assert |r| == |Padded(cleaned, numQ, language)|;
  }

  /** The fallback quiz of lines 121-132: `numQ` sample records numbered 1..numQ. */
  function Fallback(numQ: nat, language: string): (r: seq<Question>)
    ensures |r| == numQ
    ensures forall i :: 0 <= i < numQ ==> r[i] == Sample(i + 1, language)
  {
    seq(numQ, i requires 0 <= i < numQ => Sample(i + 1, language))
  }

  // ---------------- generate_mcqs ----------------

  /** `(data.get("questions") or [])` as the loop iterates it, or `None` when this
      raises: `data` is not a dict (`AttributeError`), or the value is a truthy
      number, boolean or dict, which cannot be sliced (`TypeError`). A non-empty
      string is sliced and iterated as one-character strings. */
  function Candidates(data: Value): (r: Option<seq<Value>>)
    ensures !data.Obj? ==> r == None
    ensures data.Obj? && !Truthy(Get(data.fields, "questions", Null)) ==> r == Some([])
    ensures data.Obj? && Get(data.fields, "questions", Null).List? ==>
              r == Some(Get(data.fields, "questions", Null).items)
    ensures (data.Obj? && Truthy(Get(data.fields, "questions", Null)) &&
             !Get(data.fields, "questions", Null).List? && !Get(data.fields, "questions", Null).Str?) ==> r == None
    ensures r.Some? && r.value != [] ==> Get(data.fields, "questions", Null).List? || Get(data.fields, "questions", Null).Str?
  {
    if !data.Obj? then None
    else
      match Or(Get(data.fields, "questions", Null), List([]))
      case List(items) => Some(items)
      case Str(s) => Some(seq(|s|, i requires 0 <= i < |s| => Str([s[i]])))
      case _ => None
  }

  /** The quiz `generate_mcqs` returns. */
  function Generated(parse: string -> Option<Value>, backend: Backend, numQ: int, language: string)
    : (r: seq<Question>)
    ensures |r| == ClampCount(numQ)
    ensures forall i :: 0 <= i < |r| ==> WellFormed(r[i])
    ensures !(backend.Replied? && backend.content.Some?) ==> r == Fallback(ClampCount(numQ), language)
  {
    var n := ClampCount(numQ);
    if backend.Replied? && backend.content.Some? then
      match Candidates(ToJson(parse, backend.content.value))
      case None => Fallback(n, language)
      case Some(cs) =>
        match Cleaned(cs[..Min(n, |cs|)])
        case None => Fallback(n, language)
        case Some(cleaned) =>
          var quiz := Padded(cleaned, n, language);
          if quiz != [] then quiz else Fallback(n, language)
    else
      Fallback(n, language)
  }

  /** `generate_mcqs(source_text, num_q, language)`, with the backend's outcome and
      the JSON decoder as parameters. */
  method GenerateMcqs(parse: string -> Option<Value>, backend: Backend, numQ: int, language: string)
    returns (quiz: seq<Question>)
    ensures quiz == Generated(parse, backend, numQ, language)
  {
    var n := ClampCount(numQ);
    if backend.Replied? && backend.content.Some? {
      var data := ToJson(parse, backend.content.value);
      var candidates := Candidates(data);
      if candidates.Some? {
        var cleaned := Sanitize(candidates.value, n);
        if cleaned.Some? {
          var padded := Pad(cleaned.value, n, language);
          if padded != [] {
            return padded;
          }
        }
      }
    }
    quiz := Fallback(n, language);
  }

  // ---------------- what generate_mcqs promises ----------------

  /** On the success path the sanitized records come first, in order, followed by
      dummies numbered from `len(cleaned) + 1`. */
  lemma GeneratedFromReply(parse: string -> Option<Value>, raw: string, numQ: int, language: string,
                           cs: seq<Value>, cleaned: seq<Question>)
    requires Candidates(ToJson(parse, raw)) == Some(cs)
    requires Cleaned(cs[..Min(ClampCount(numQ), |cs|)]) == Some(cleaned)
    ensures Generated(parse, Replied(Some(raw)), numQ, language) == Padded(cleaned, ClampCount(numQ), language)
    ensures var r := Generated(parse, Replied(Some(raw)), numQ, language);
            && r[..|cleaned|] == cleaned
            && forall j :: |cleaned| <= j < |r| ==> r[j] == Dummy(j + 1, language)
    ensures ClampCount(numQ) <= |cleaned| ==> Generated(parse, Replied(Some(raw)), numQ, language) == cleaned
  {
    var n := ClampCount(numQ);
    assert |Padded(cleaned, n, language)| >= 1;
    if n <= |cleaned| {
      PaddedFull(cleaned, n, language);
    }
  }

  /** A reply that decodes to something other than a dict, or to a dict holding a
      non-dict candidate among the first `num_q`, makes `generate_mcqs` raise
      inside its `try`: the result is the sample quiz, not a padded one. */
  lemma NonDictFallsBack(parse: string -> Option<Value>, raw: string, numQ: int, language: string)
    requires var data := ToJson(parse, raw);
             || !data.Obj?
             || (Candidates(data).Some? &&
                 exists i :: 0 <= i < Min(ClampCount(numQ), |Candidates(data).value|) &&
                             !Candidates(data).value[i].Obj?)
    ensures Generated(parse, Replied(Some(raw)), numQ, language) == Fallback(ClampCount(numQ), language)
  {
    var data := ToJson(parse, raw);
    if data.Obj? {
      var cs := Candidates(data).value;
      var n := Min(ClampCount(numQ), |cs|);
      assert exists i :: 0 <= i < |cs[..n]| && !cs[..n][i].Obj? by {
        var i :| 0 <= i < n && !cs[i].Obj?;
        assert cs[..n][i] == cs[i];
      }
    }
  }

  /** Slicing a string `questions` entry gives its characters as one-character
      strings, none of which is a dict. */
  lemma StringQuestions(data: Value, s: string)
    requires data.Obj? && Get(data.fields, "questions", Null) == Str(s)
    ensures Candidates(data) == Some(seq(|s|, i requires 0 <= i < |s| => Str([s[i]])))
    ensures forall i :: 0 <= i < |s| ==> !Candidates(data).value[i].Obj?
  {
    if s == [] {
      assert seq(|s|, i requires 0 <= i < |s| => Str([s[i]])) == [];
    }
  }

  /** A `questions` entry that is truthy but not a list also ends in the sample
      quiz: a non-empty string is sliced into one-character strings, the first of
      which is not a dict, and any other kind cannot be sliced at all. */
  lemma QuestionsNotAListFallBack(parse: string -> Option<Value>, raw: string, numQ: int, language: string)
    requires ToJson(parse, raw).Obj?
    requires var v := Get(ToJson(parse, raw).fields, "questions", Null); Truthy(v) && !v.List?
    ensures Generated(parse, Replied(Some(raw)), numQ, language) == Fallback(ClampCount(numQ), language)
  {
    var data := ToJson(parse, raw);
    if Get(data.fields, "questions", Null).Str? {
      StringQuestions(data, Get(data.fields, "questions", Null).s);
      var cs := Candidates(data).value;
      assert 0 < Min(ClampCount(numQ), |cs|) && !cs[0].Obj?;
      NonDictFallsBack(parse, raw, numQ, language);
    }
  }

  /** A reply none of whose attempts decodes becomes `{}`, which has no questions:
      the quiz is all dummies (`Dummy Question 1..num_q`), not the sample quiz. */
  lemma UndecodableReplyGivesDummies(parse: string -> Option<Value>, raw: string, numQ: int, language: string)
    requires forall t :: t in Attempts(raw) ==> parse(t).None?
    ensures var r := Generated(parse, Replied(Some(raw)), numQ, language);
            forall j :: 0 <= j < |r| ==> r[j] == Dummy(j + 1, language)
  {
    assert ToJson(parse, raw) == Obj([]);
    assert Candidates(Obj([])) == Some([]);
    var e: seq<Value> := [];
    assert e[..0] == [];
    assert Cleaned(e) == Some([]);
  }

  /** The candidate `{"question": text, "choices": [a, b, c, d], "answer_index": ai}`. */
  function Candidate(text: string, a: string, b: string, c: string, d: string, ai: Value): Value {
    Obj([("question", Str(text)),
         ("choices", List([Str(a), Str(b), Str(c), Str(d)])),
         ("answer_index", ai)])
  }

  lemma CandidateFields(text: string, a: string, b: string, c: string, d: string, ai: Value)
    ensures var f := Candidate(text, a, b, c, d, ai).fields;
            && Get(f, "question", Str("")) == Str(text)
            && Get(f, "choices", Null) == List([Str(a), Str(b), Str(c), Str(d)])
            && Get(f, "answer_index", Int(0)) == ai
  {
    var f := Candidate(text, a, b, c, d, ai).fields;
    GetHead(f, "question", Str(""));
    GetSkip(f, "choices", Null);
    GetHead(f[1..], "choices", Null);
    GetSkip(f, "answer_index", Int(0));
    GetSkip(f[1..], "answer_index", Int(0));
    GetHead(f[1..][1..], "answer_index", Int(0));
  }

  /** What the loop body reads from such a candidate: its question text, ... */
  lemma CandidateQuestion(text: string, a: string, b: string, c: string, d: string, ai: Value)
    requires Trimmed(text)
    ensures QuestionText(Candidate(text, a, b, c, d, ai).fields) == text
  {
    CandidateFields(text, a, b, c, d, ai);
    StripUnchanged(text);
  }

  /** ... its choices ... */
  lemma CandidateChoices(text: string, a: string, b: string, c: string, d: string, ai: Value)
    ensures ChoicesValue(Candidate(text, a, b, c, d, ai).fields) == List([Str(a), Str(b), Str(c), Str(d)])
  {
    CandidateFields(text, a, b, c, d, ai);
  }

  /** ... and its answer index. */
  lemma CandidateAnswerIndex(text: string, a: string, b: string, c: string, d: string, n: int)
    ensures AnswerIndex(Candidate(text, a, b, c, d, Int(n)).fields) == ClampIndex(n)
  {
    CandidateFields(text, a, b, c, d, Int(n));
  }

  /** A candidate with non-blank question text and four string choices is kept as
      it stands, with its integer answer index clamped to 0..3. */
  lemma CandidateKept(text: string, a: string, b: string, c: string, d: string, n: int)
    requires Trimmed(text)
    ensures Examine(Candidate(text, a, b, c, d, Int(n))) == Keep(Question(text, [a, b, c, d], ClampIndex(n)))
  {
    var cand := Candidate(text, a, b, c, d, Int(n));
    CandidateQuestion(text, a, b, c, d, Int(n));
    CandidateChoices(text, a, b, c, d, Int(n));
    CandidateAnswerIndex(text, a, b, c, d, n);
    ChoiceTextsOfStrings(a, b, c, d);
    KeptRecord(cand);
  }

  /** Four string choices are kept verbatim. */
  lemma ChoiceTextsOfStrings(a: string, b: string, c: string, d: string)
    ensures ChoiceTexts([Str(a), Str(b), Str(c), Str(d)]) == [a, b, c, d]
  {
    var items := [Str(a), Str(b), Str(c), Str(d)];
    var texts := ChoiceTexts(items);
    assert items[0].Str? && items[1].Str? && items[2].Str? && items[3].Str?;
    assert texts[0] == a;
    assert texts[1] == b;
    assert texts[2] == c;
    assert texts[3] == d;
  }

  /** What a kept candidate becomes. */
  lemma KeptRecord(c: Value)
    requires c.Obj? && Accepted(c.fields)
    ensures Examine(c) == Keep(Question(QuestionText(c.fields),
                                        ChoiceTexts(ChoicesValue(c.fields).items),
                                        AnswerIndex(c.fields)))
  {
  }

  lemma VerdictsSingle(c: Value)
    ensures Verdicts([c]) == [Examine(c)]
  {
  }

  lemma CollectSingle(q: Question)
    ensures Collect([Keep(q)]) == Some([q])
  {
    var none: seq<Verdict> := [];
    CollectSnoc(none, Keep(q));
    assert none + [Keep(q)] == [Keep(q)];
    var kept: seq<Question> := [];
    assert Collect(none) == Some(kept);
    assert kept + [q] == [q];
  }

  /** A lone candidate that is kept is the whole sanitized list. */
  lemma SingleKept(c: Value, q: Question)
    requires Examine(c) == Keep(q)
    ensures Cleaned([c]) == Some([q])
  {
    VerdictsSingle(c);
    CollectSingle(q);
  }

  /** A reply that decodes to `{"questions": [c]}` has `c` as its one candidate. */
  lemma SingleCandidate(parse: string -> Option<Value>, raw: string, c: Value)
    requires parse(raw) == Some(Obj([("questions", List([c]))]))
    ensures Candidates(ToJson(parse, raw)) == Some([c])
  {
    var data := Obj([("questions", List([c]))]);
    assert ToJson(parse, raw) == data;
    GetHead(data.fields, "questions", Null);
  }

  /** A one-question quiz (any `num_q` up to 1) built from a reply holding one
      kept candidate is that candidate's record alone. */
  lemma SingleReply(parse: string -> Option<Value>, raw: string, numQ: int, language: string,
                    c: Value, q: Question)
    requires numQ <= 1
    requires parse(raw) == Some(Obj([("questions", List([c]))]))
    requires Examine(c) == Keep(q)
    ensures Generated(parse, Replied(Some(raw)), numQ, language) == [q]
  {
    SingleCandidate(parse, raw, c);
    SingleKept(c, q);
    SinglePrefix(numQ, c);
    GeneratedFromReply(parse, raw, numQ, language, [c], [q]);
  }

  lemma SinglePrefix(numQ: int, c: Value)
    requires numQ <= 1
    ensures ClampCount(numQ) == 1 && [c][..Min(ClampCount(numQ), 1)] == [c]
  {
  }

  /** A reply `{"questions": [<candidate>]}` for a one-question quiz gives exactly
      that question, its answer index clamped (5 becomes 3), and no padding. */
  lemma SingleQuestionReply(parse: string -> Option<Value>, raw: string, numQ: int, language: string,
                            text: string, a: string, b: string, c: string, d: string, n: int)
    requires numQ <= 1
    requires Trimmed(text)
    requires parse(raw) == Some(Obj([("questions", List([Candidate(text, a, b, c, d, Int(n))]))]))
    ensures Generated(parse, Replied(Some(raw)), numQ, language) == [Question(text, [a, b, c, d], ClampIndex(n))]
  {
    CandidateKept(text, a, b, c, d, n);
    SingleReply(parse, raw, numQ, language, Candidate(text, a, b, c, d, Int(n)),
                Question(text, [a, b, c, d], ClampIndex(n)));
  }
}
