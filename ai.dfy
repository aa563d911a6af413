/** The post-processing around the language-model calls: the key gate, the
    offline mock insights, code-fence stripping, insight normalisation with its
    fallback, category snapping and the question answer. The model call is an
    input (its reply or its failure), `JSON.parse` is a function parameter and
    so is the clock. */
module Ai {
  import opened Results
  import opened JsText
  import opened JsNumber
  import opened Categories
  import opened JsonValues
  import opened Aggregates

  /** The two environment variables the module reads. */
  datatype Env = Env(openRouterKey: Option<string>, openAiKey: Option<string>)

  const OpenRouterPlaceholder := "your-openrouter-api-key"
  const InvalidKeyMarker := "INVALID_KEY_NEEDS_REPLACEMENT"

  /** The gate in front of the insight and answer generators: the OpenRouter
      key is absent, empty or one of the two placeholder values. */
  predicate KeyMissing(env: Env) {
    env.openRouterKey.None? || env.openRouterKey.value in {"", OpenRouterPlaceholder, InvalidKeyMarker}
  }

  /** `OPENROUTER_API_KEY || OPENAI_API_KEY`: the key the client is built with. */
  function ClientKey(env: Env): (k: Option<string>)
    ensures k == env.openRouterKey || k == env.openAiKey
  {
    if env.openRouterKey.Some? && env.openRouterKey.value != "" then env.openRouterKey else env.openAiKey
  }

  /** The gate never looks at the OpenAI key, while the client falls back to it:
      with only an OpenAI key the client would have one, yet the gate trips. */
  lemma GateIgnoresOpenAiKey(env: Env, other: Option<string>)
    ensures KeyMissing(env.(openAiKey := other)) == KeyMissing(env)
    ensures env.openRouterKey.None? ==> KeyMissing(env) && ClientKey(env) == env.openAiKey
    ensures !KeyMissing(env) ==> ClientKey(env) == env.openRouterKey
  {
  }

  /** An expense as the insight generators receive it. */
  datatype Expense = Expense(id: string, amount: real, category: string, description: string, date: string)

  /** An insight as returned to the page. The model's fields are passed on
      untyped, so kind (the `type` field), title, message and confidence are
      whatever JSON value the reply held, and the action may be absent. */
  datatype Insight = Insight(id: string, kind: Json, title: Json, message: Json, action: Option<Json>, confidence: Json)

  /** `expenses.reduce((sum, e) => sum + e.amount, 0)`. */
  function TotalAmount(expenses: seq<Expense>): real {
    Sum(seq(|expenses|, i requires 0 <= i < |expenses| => expenses[i].amount))
  }

  function CategoryList(expenses: seq<Expense>): (cs: seq<string>)
    ensures |cs| == |expenses| && forall i :: 0 <= i < |expenses| ==> cs[i] == expenses[i].category
  {
    seq(|expenses|, i requires 0 <= i < |expenses| => expenses[i].category)
  }

  predicate NoDuplicates(s: seq<string>) {
    forall i, j :: 0 <= i < j < |s| ==> s[i] != s[j]
  }

  /** `[...new Set(s)]`: each value once, in order of first appearance. */
  function Distinct(s: seq<string>): (r: seq<string>)
    ensures |r| <= |s|
    ensures forall x :: x in r <==> x in s
    ensures NoDuplicates(r)
  {
    if s == [] then []
    else
      var init := Distinct(s[..|s| - 1]);
      var last := s[|s| - 1];
      assert s == s[..|s| - 1] + [last];
      if last in init then init else init + [last]
  }

  /** The set keeps every value, so its size is the list's length exactly
      when no value repeats. */
  lemma {:induction false} DistinctKeepsAllIffNoDuplicates(s: seq<string>)
    ensures |Distinct(s)| == |s| <==> NoDuplicates(s)
  {
    if s != [] {
      var init := s[..|s| - 1];
      var last := s[|s| - 1];
      assert s == init + [last];
      DistinctKeepsAllIffNoDuplicates(init);
      if NoDuplicates(s) {
        assert NoDuplicates(init) by {
          forall i, j | 0 <= i < j < |init| ensures init[i] != init[j] {
            assert init[i] == s[i] && init[j] == s[j];
          }
        }
        assert last !in init by {
          forall i | 0 <= i < |init| ensures init[i] != last {
            assert init[i] == s[i] && last == s[|s| - 1];
          }
        }
      }
      if |Distinct(s)| == |s| {
        assert |Distinct(init)| == |init| && last !in Distinct(init);
        forall i, j | 0 <= i < j < |s| ensures s[i] != s[j] {
          if j < |s| - 1 {
            assert s[i] == init[i] && s[j] == init[j];
          } else {
            assert s[i] in init;
          }
        }
      }
    }
  }

  /** A non-empty list has at least one distinct value. */
  lemma DistinctNonEmpty(s: seq<string>)
    requires s != []
    ensures 1 <= |Distinct(s)| <= |s|
  {
    assert s[0] in Distinct(s);
  }

  const Rupee := '\U{20B9}'

  function MockSummary(total: real, categoryCount: nat): string {
    "You have " + [Rupee] + ToFixed2(total) + " in total expenses across " + DecimalString(categoryCount)
      + " categories. To get AI-powered "
      + "insights, please add your OpenRouter or "
      + "OpenAI API key to the .env.local file."
  }

  const GettingStarted := "Visit openrouter.ai to get a free API "
    + "key and unlock intelligent spending "
    + "analysis, category suggestions, and "
    + "personalized financial recommendations."

  /** The two insights shown when the key is missing: an info card summarising
      the total and the number of distinct categories, and a tip. Both have
      confidence 1. */
  function MockInsights(expenses: seq<Expense>): (r: seq<Insight>)
    ensures |r| == 2 && r[0].id == "mock-1" && r[1].id == "mock-2"
    ensures r[0].kind == JString("info") && r[1].kind == JString("tip")
    ensures r[0].confidence == JNumber(1.0) && r[1].confidence == JNumber(1.0)
    ensures r[0].message == JString(MockSummary(TotalAmount(expenses), |Distinct(CategoryList(expenses))|))
  {
    var total := TotalAmount(expenses);
    var categories := Distinct(CategoryList(expenses));
    [ Insight("mock-1", JString("info"), JString("API Key Required"),
              JString(MockSummary(total, |categories|)),
              Some(JString("Configure API key in .env.local")), JNumber(1.0)),
      Insight("mock-2", JString("tip"), JString("Getting Started"), JString(GettingStarted),
              Some(JString("Get API key at openrouter.ai")), JNumber(1.0)) ]
  }

  /** The mock insights depend on the expenses only through the total and the
      number of distinct categories: the same expenses in any other order, or
      more expenses of existing categories that sum to the same total, give
      the same cards. */
  lemma MockDependsOnlyOnSummary(a: seq<Expense>, b: seq<Expense>)
    requires TotalAmount(a) == TotalAmount(b)
    requires forall x :: x in CategoryList(a) <==> x in CategoryList(b)
    ensures MockInsights(a) == MockInsights(b)
  {
    SameElementsSameDistinctCount(CategoryList(a), CategoryList(b));
  }

  lemma SameElementsSameDistinctCount(s: seq<string>, t: seq<string>)
    requires forall x :: x in s <==> x in t
    ensures |Distinct(s)| == |Distinct(t)|
  {
    var ds, dt := Distinct(s), Distinct(t);
    DistinctAsSet(ds);
    DistinctAsSet(dt);
    assert (set x | x in ds) == (set x | x in dt);
  }

  /** A list without repeats has as many elements as the set of them. */
  lemma {:induction false} DistinctAsSet(s: seq<string>)
    requires NoDuplicates(s)
    ensures |set x | x in s| == |s|
  {
    if s != [] {
      var init := s[..|s| - 1];
      var last := s[|s| - 1];
      assert s == init + [last];
      assert NoDuplicates(init) by {
        forall i, j | 0 <= i < j < |init| ensures init[i] != init[j] {
          assert init[i] == s[i] && init[j] == s[j];
        }
      }
      DistinctAsSet(init);
      assert last !in init by {
        forall i | 0 <= i < |init| ensures init[i] != last {
          assert init[i] == s[i];
        }
      }
      assert (set x | x in s) == (set x | x in init) + {last};
    }
  }

  const FallbackMessage := "Unable to generate personalized "
    + "insights at this time. Please try again "
    + "later."

  /** The single card returned whenever the analysis fails. */
  const FallbackInsights: seq<Insight> :=
    [Insight("fallback-1", JString("info"), JString("AI Analysis Unavailable"), JString(FallbackMessage),
             Some(JString("Refresh insights")), JNumber(0.5))]

  predicate StartsWith(s: string, prefix: string) {
    |prefix| <= |s| && s[..|prefix|] == prefix
  }

  predicate EndsWith(s: string, suffix: string) {
    |suffix| <= |s| && s[|s| - |suffix|..] == suffix
  }

  const Fence := "```"
  const JsonFence := "```json"

  /** `s.replace(/\s*```$/, '')`: a closing fence and the white space before it go. */
  function StripClosingFence(s: string): (r: string)
    ensures |r| <= |s|
    ensures !EndsWith(s, Fence) ==> r == s
  {
    if EndsWith(s, Fence) then TrimEnd(s[..|s| - 3]) else s
  }

  /** The cleaning of the reply before parsing: trim it, then if it opens with
      a fence tagged json or an untagged fence, drop that opening fence with
      the white space after it and a closing fence with the white space before it. */
  function StripFences(reply: string): (r: string)
    ensures |r| <= |reply|
  {
    Unfence(Trim(reply))
  }

  /** The fence handling on the trimmed reply. */
  function Unfence(t: string): (r: string)
    ensures |r| <= |t|
  {
    if StartsWith(t, JsonFence) then StripClosingFence(TrimStart(t[7..]))
    else if StartsWith(t, Fence) then StripClosingFence(TrimStart(t[3..]))
    else t
  }

  /** A reply that, once trimmed, does not open with a fence is only trimmed. */
  lemma UnfencedReplyOnlyTrimmed(reply: string)
    requires !StartsWith(Trim(reply), Fence)
    ensures StripFences(reply) == Trim(reply)
  {
    JsonFenceIsFence(Trim(reply));
  }

  /** A json-tagged fence is in particular a fence. */
  lemma JsonFenceIsFence(t: string)
    ensures StartsWith(t, JsonFence) ==> StartsWith(t, Fence)
  {
    if StartsWith(t, JsonFence) {
      assert t[..3] == JsonFence[..3];
    }
  }

  /** A closing fence goes together with the white space before it. */
  lemma ClosingFenceStripped(body: string, ws2: string)
    requires AllSpace(ws2) && Trimmed(body)
    ensures StripClosingFence(body + ws2 + Fence) == body
  {
    var s := body + ws2 + Fence;
    assert s[|s| - 3..] == Fence;
    assert s[..|s| - 3] == body + ws2;
    TrimEndPadded(body, ws2);
  }

  /** After the opening fence and its white space, what remains is the body
      followed by the closing fence, whatever white space sat between them. */
  lemma BodyAfterOpening(ws1: string, body: string, ws2: string)
    requires AllSpace(ws1) && AllSpace(ws2) && Trimmed(body)
    ensures StripClosingFence(TrimStart(ws1 + body + ws2 + Fence)) == body
  {
    if body == [] {
      EmptyBodyAfterOpening(ws1, body, ws2);
    } else {
      TextAfterOpening(ws1, body, ws2);
    }
  }

  lemma EmptyBodyAfterOpening(ws1: string, body: string, ws2: string)
    requires AllSpace(ws1) && AllSpace(ws2) && body == []
    ensures StripClosingFence(TrimStart(ws1 + body + ws2 + Fence)) == body
  {
    assert ws1 + body == ws1;
    AllSpaceConcat(ws1, ws2);
    OnlyFenceAfterSpaces(ws1 + ws2);
  }

  lemma OnlyFenceAfterSpaces(spaces: string)
    requires AllSpace(spaces)
    ensures StripClosingFence(TrimStart(spaces + Fence)) == []
  {
    TrimStartPadded(spaces, Fence);
    ClosingFenceStripped([], []);
    assert [] + [] + Fence == Fence;
  }

  lemma TextAfterOpening(ws1: string, body: string, ws2: string)
    requires AllSpace(ws1) && AllSpace(ws2) && Trimmed(body) && body != []
    ensures StripClosingFence(TrimStart(ws1 + body + ws2 + Fence)) == body
  {
    var tail := body + ws2 + Fence;
    assert ws1 + body + ws2 + Fence == ws1 + tail;
    assert tail[0] == body[0];
    TrimStartPadded(ws1, tail);
    ClosingFenceStripped(body, ws2);
  }

  /** A reply that is already trimmed goes straight to the fence handling. */
  lemma StripFencesOfTrimmed(t: string)
    requires Trimmed(t)
    ensures StripFences(t) == Unfence(t)
  {
    TrimOfTrimmed(t);
  }

  /** The opening fence is split off exactly. */
  lemma OpeningSplit(opening: string, inner: string)
    ensures StartsWith(opening + inner, opening)
    ensures (opening + inner)[|opening|..] == inner
  {
    assert (opening + inner)[..|opening|] == opening;
  }

  /** Cleaning a trimmed reply that opens with a json-tagged fence. */
  lemma StripJsonBlock(inner: string)
    requires Trimmed(JsonFence + inner)
    ensures StripFences(JsonFence + inner) == StripClosingFence(TrimStart(inner))
  {
    StripFencesOfTrimmed(JsonFence + inner);
    OpeningSplit(JsonFence, inner);
    assert |JsonFence| == 7;
  }

  /** Cleaning a trimmed reply that opens with an untagged fence. */
  lemma StripPlainBlock(inner: string)
    requires Trimmed(Fence + inner) && !StartsWith(Fence + inner, JsonFence)
    ensures StripFences(Fence + inner) == StripClosingFence(TrimStart(inner))
  {
    StripFencesOfTrimmed(Fence + inner);
    OpeningSplit(Fence, inner);
    assert |Fence| == 3;
  }

  /** Cleaning begins by trimming, so white space around the reply is irrelevant. */
  lemma StripFencesTrims(reply: string)
    ensures StripFences(reply) == StripFences(Trim(reply))
  {
    TrimOfTrimmed(Trim(reply));
  }

  /** A fence-delimited block followed or preceded by white space trims to itself. */
  lemma FencedBlockTrimmed(lead: string, block: string, trail: string)
    requires AllSpace(lead) && AllSpace(trail)
    requires StartsWith(block, Fence) && EndsWith(block, Fence)
    ensures Trim(lead + block + trail) == block
  {
    assert block[0] == Fence[0] && block[|block| - 1] == Fence[2];
    TrimPadded(lead, block, trail);
  }

  /** The block case of a json-tagged fence. */
  lemma JsonFencedBlock(ws1: string, body: string, ws2: string)
    requires AllSpace(ws1) && AllSpace(ws2) && Trimmed(body)
    ensures StripFences(JsonFence + ws1 + body + ws2 + Fence) == body
  {
    var inner := ws1 + body + ws2 + Fence;
    var block := JsonFence + inner;
    assert JsonFence + ws1 + body + ws2 + Fence == block;
    assert block[0] == '`' && block[|block| - 1] == '`';
    StripJsonBlock(inner);
    BodyAfterOpening(ws1, body, ws2);
  }

  /** The block case of an untagged fence. */
  lemma PlainFencedBlock(ws1: string, body: string, ws2: string)
    requires AllSpace(ws1) && AllSpace(ws2) && Trimmed(body)
    requires !StartsWith(ws1 + body, "json")
    ensures StripFences(Fence + ws1 + body + ws2 + Fence) == body
  {
    var inner := ws1 + body + ws2 + Fence;
    var block := Fence + inner;
    assert Fence + ws1 + body + ws2 + Fence == block;
    assert block[0] == '`' && block[|block| - 1] == '`';
    NotJsonTagged(ws1, body, ws2);
    StripPlainBlock(inner);
    BodyAfterOpening(ws1, body, ws2);
  }

  /** A fenced reply tagged json yields its body, with any white space around
      the fence and between fence and body. The body may itself end in a fence. */
  lemma JsonFencedReply(lead: string, ws1: string, body: string, ws2: string, trail: string)
    requires AllSpace(lead) && AllSpace(ws1) && AllSpace(ws2) && AllSpace(trail) && Trimmed(body)
    ensures StripFences(lead + JsonFence + ws1 + body + ws2 + Fence + trail) == body
  {
    var block := JsonFence + ws1 + body + ws2 + Fence;
    assert lead + JsonFence + ws1 + body + ws2 + Fence + trail == lead + block + trail;
    FencedBlockTrimmed(lead, block, trail);
    StripFencesTrims(lead + block + trail);
    JsonFencedBlock(ws1, body, ws2);
  }

  /** An untagged fenced reply yields its body, unless the body follows the
      fence directly and begins with "json", which reads as a tagged fence. */
  lemma PlainFencedReply(lead: string, ws1: string, body: string, ws2: string, trail: string)
    requires AllSpace(lead) && AllSpace(ws1) && AllSpace(ws2) && AllSpace(trail) && Trimmed(body)
    requires !StartsWith(ws1 + body, "json")
    ensures StripFences(lead + Fence + ws1 + body + ws2 + Fence + trail) == body
  {
    var block := Fence + ws1 + body + ws2 + Fence;
    assert lead + Fence + ws1 + body + ws2 + Fence + trail == lead + block + trail;
    FencedBlockTrimmed(lead, block, trail);
    StripFencesTrims(lead + block + trail);
    PlainFencedBlock(ws1, body, ws2);
  }

  lemma NotJsonTagged(ws1: string, body: string, ws2: string)
    requires AllSpace(ws1) && AllSpace(ws2)
    requires !StartsWith(ws1 + body, "json")
    ensures !StartsWith(Fence + ws1 + body + ws2 + Fence, JsonFence)
  {
    var rest := ws1 + body + ws2 + Fence;
    assert Fence + ws1 + body + ws2 + Fence == Fence + rest;
    RestNotJson(ws1, body, ws2);
    FenceThenNotJson(rest);
  }

  /** What follows the opening fence does not start with "json". */
  lemma RestNotJson(ws1: string, body: string, ws2: string)
    requires AllSpace(ws1) && AllSpace(ws2)
    requires !StartsWith(ws1 + body, "json")
    ensures !StartsWith(ws1 + body + ws2 + Fence, "json")
  {
    var rest := ws1 + body + ws2 + Fence;
    var wb := ws1 + body;
    if |wb| >= 4 {
      assert rest[..4] == wb[..4];
    } else if |rest| >= 4 {
      var k := |wb|;
      assert !IsSpace("json"[k]) by {
        assert k == 0 || k == 1 || k == 2 || k == 3;
      }
      if ws2 != [] {
        assert rest[k] == ws2[0];
      } else {
        assert rest[k] == '`';
      }
      assert rest[..4][k] != "json"[k];
    }
  }

  /** An opening fence followed by anything but "json" is not a json-tagged fence. */
  lemma FenceThenNotJson(rest: string)
    requires !StartsWith(rest, "json")
    ensures !StartsWith(Fence + rest, JsonFence)
  {
    assert |Fence| == 3 && |JsonFence| == 7;
    if |rest| >= 4 {
      assert JsonFence[3..7] == "json";
      assert (Fence + rest)[3..7] == rest[..4];
    }
  }

  /** The element is an object whose own field `key` holds a truthy value. */
  predicate HasTruthy(item: Json, key: string) {
    item.JObject? && key in item.fields && Truthy(item.fields[key])
  }

  /** `insight.x || default` for each field, `action` passed through, and the
      id built from the clock reading and the position: a field keeps the
      element's value when that value is truthy and takes its default
      otherwise, so every field but `action` ends up truthy. */
  function NormaliseOne(item: Json, id: string): (r: Insight)
    requires !item.JNull?
    ensures r.id == id
    ensures r.kind == if HasTruthy(item, "type") then item.fields["type"] else JString("info")
    ensures r.title == if HasTruthy(item, "title") then item.fields["title"] else JString("AI Insight")
    ensures r.message == if HasTruthy(item, "message") then item.fields["message"] else JString("Analysis complete")
    ensures r.confidence == if HasTruthy(item, "confidence") then item.fields["confidence"] else JNumber(0.8)
    ensures r.action.Some? <==> item.JObject? && "action" in item.fields
    ensures r.action.Some? ==> r.action.value == item.fields["action"]
    ensures Truthy(r.kind) && Truthy(r.title) && Truthy(r.message) && Truthy(r.confidence)
  {
    Insight(id,
      OrElse(Property(item, "type"), JString("info")),
      OrElse(Property(item, "title"), JString("AI Insight")),
      OrElse(Property(item, "message"), JString("Analysis complete")),
      Property(item, "action"),
      OrElse(Property(item, "confidence"), JNumber(0.8)))
  }

  /** `ai-${Date.now()}-${index}`. */
  function InsightId(stamp: nat, index: nat): (id: string)
    ensures |id| >= 6 && id[..3] == "ai-"
  {
    "ai-" + DecimalString(stamp) + "-" + DecimalString(index)
  }

  /** Under one clock reading, different positions get different ids. */
  lemma InsightIdsDistinct(stamp: nat, i: nat, j: nat)
    requires i != j
    ensures InsightId(stamp, i) != InsightId(stamp, j)
  {
    var k := 4 + |DecimalString(stamp)|;
    assert DecimalString(i) != DecimalString(j);
    assert InsightId(stamp, i)[k..] == DecimalString(i);
    assert InsightId(stamp, j)[k..] == DecimalString(j);
  }

  /** `insights.map(...)` over a parsed array: one insight per element, in
      order. Reading a field of a null element throws, which fails the whole
      map. `now(i)` is the clock reading taken for element `i`. */
  function Normalise(items: seq<Json>, now: nat -> nat): (r: Option<seq<Insight>>)
    ensures r.None? <==> exists i :: 0 <= i < |items| && items[i].JNull?
    ensures r.Some? ==> |r.value| == |items|
    ensures r.Some? ==> forall i :: 0 <= i < |items| ==> r.value[i] == NormaliseOne(items[i], InsightId(now(i), i))
    ensures r.Some? ==> forall i :: 0 <= i < |items| ==>
      r.value[i].id == InsightId(now(i), i) && Truthy(r.value[i].kind) && Truthy(r.value[i].confidence)
  {
    if exists i :: 0 <= i < |items| && items[i].JNull? then None
    else Some(seq(|items|, i requires 0 <= i < |items| => NormaliseOne(items[i], InsightId(now(i), i))))
  }

  /** An insight written back as the JSON object the model is asked for. */
  function ToJson(ins: Insight): Json {
    var fields := map["type" := ins.kind, "title" := ins.title, "message" := ins.message, "confidence" := ins.confidence];
    JObject(if ins.action.Some? then fields["action" := ins.action.value] else fields)
  }

  /** Normalising is idempotent: a normalised insight written back as JSON
      normalises to itself, up to its id. */
  lemma NormaliseIdempotent(ins: Insight, id: string)
    requires Truthy(ins.kind) && Truthy(ins.title) && Truthy(ins.message) && Truthy(ins.confidence)
    ensures NormaliseOne(ToJson(ins), id) == ins.(id := id)
  {
  }

  /** Each falsy or missing field takes its default: a confidence of 0, for
      instance, becomes 0.8, and an element that is not an object gets every
      default and no action. */
  lemma NormaliseDefaults(item: Json, id: string)
    requires !item.JNull?
    ensures item.JObject? && "confidence" in item.fields && item.fields["confidence"] == JNumber(0.0) ==>
      NormaliseOne(item, id).confidence == JNumber(0.8)
    ensures !item.JObject? ==>
      NormaliseOne(item, id) == Insight(id, JString("info"), JString("AI Insight"), JString("Analysis complete"), None, JNumber(0.8))
  {
  }

  /** The outcome of a chat-completion call: a reply with its content, possibly
      null, or a failure (thrown error or no choice in the response). */
  datatype Completion = CallFailed | Replied(content: Option<string>)

  /** The content is present and not the empty string. */
  predicate HasContent(c: Completion) {
    c.Replied? && c.content.Some? && c.content.value != ""
  }

  /** The elements of the parsed reply, when there is content, the cleaned
      text parses and the result is an array. */
  function ParsedItems(c: Completion, parse: string -> Option<Json>): Option<seq<Json>> {
    if !HasContent(c) then None
    else match parse(StripFences(c.content.value))
      case Some(JArray(items)) => Some(items)
      case _ => None
  }

  /** Everything on the way from the reply to the insights succeeds: content
      present, the cleaned text parses, it is an array, and no element is null. */
  predicate AnalysisSucceeds(c: Completion, parse: string -> Option<Json>) {
    && ParsedItems(c, parse).Some?
    && forall i :: 0 <= i < |ParsedItems(c, parse).value| ==> !ParsedItems(c, parse).value[i].JNull?
  }

  /** `generateExpenseInsights`: mock cards behind the key gate, otherwise
      the outcome of the analysis of the model's reply. */
  function GenerateExpenseInsights(env: Env, expenses: seq<Expense>, reply: Completion,
                                   parse: string -> Option<Json>, now: nat -> nat): (r: seq<Insight>)
    ensures KeyMissing(env) ==> r == MockInsights(expenses) && |r| == 2
    ensures !KeyMissing(env) ==> r == InsightsFromReply(reply, parse, now)
  {
    if KeyMissing(env) then MockInsights(expenses)
    else InsightsFromReply(reply, parse, now)
  }

  /** The `try` block past the gate and its `catch`: the normalised array when
      every step succeeds, the single fallback card when the content is
      missing, the cleaned text does not parse, the result is not an array or
      the map throws on a null element. */
  function InsightsFromReply(reply: Completion, parse: string -> Option<Json>, now: nat -> nat): (r: seq<Insight>)
    ensures !AnalysisSucceeds(reply, parse) ==> r == FallbackInsights
    ensures AnalysisSucceeds(reply, parse) ==> Normalise(ParsedItems(reply, parse).value, now) == Some(r)
  {
    InsightsFromItems(ParsedItems(reply, parse), now)
  }

  /** The normalised elements, or the fallback card when there is no array or
      an element is null. */
  function InsightsFromItems(parsed: Option<seq<Json>>, now: nat -> nat): (r: seq<Insight>)
    ensures parsed.None? || (exists i :: 0 <= i < |parsed.value| && parsed.value[i].JNull?) ==> r == FallbackInsights
    ensures parsed.Some? && (forall i :: 0 <= i < |parsed.value| ==> !parsed.value[i].JNull?) ==>
      Normalise(parsed.value, now) == Some(r)
  {
    match parsed
    case None => FallbackInsights
    case Some(items) =>
      match Normalise(items, now)
      case None => FallbackInsights
      case Some(insights) => insights
  }

  /** Normalised insights carry ids starting with "ai-", so they are never the fallback card. */
  lemma NormalisedIsNotFallback(items: seq<Json>, now: nat -> nat)
    requires Normalise(items, now).Some?
    ensures Normalise(items, now).value != FallbackInsights
  {
    var r := Normalise(items, now).value;
    if |r| == 1 {
      assert r[0].id[0] == 'a';
      assert FallbackInsights[0].id[0] == 'f';
    }
  }

  /** The fallback card is returned exactly when the analysis fails: a
      successful analysis never yields it. */
  lemma FallbackIffFailure(reply: Completion, parse: string -> Option<Json>, now: nat -> nat)
    ensures InsightsFromReply(reply, parse, now) == FallbackInsights <==> !AnalysisSucceeds(reply, parse)
  {
    if AnalysisSucceeds(reply, parse) {
      NormalisedIsNotFallback(ParsedItems(reply, parse).value, now);
    }
  }

  /** A reply that parses to an empty array yields no insights at all. */
  lemma EmptyArrayGivesNoInsights(reply: Completion, parse: string -> Option<Json>, now: nat -> nat)
    requires HasContent(reply)
    requires parse(StripFences(reply.content.value)) == Some(JArray([]))
    ensures InsightsFromReply(reply, parse, now) == []
  {
    EmptyArrayParsed(reply, parse);
    NoItemsNoInsights(reply, parse, now);
  }

  lemma EmptyArrayParsed(reply: Completion, parse: string -> Option<Json>)
    requires HasContent(reply)
    requires parse(StripFences(reply.content.value)) == Some(JArray([]))
    ensures ParsedItems(reply, parse) == Some([])
  {
  }

  lemma NoItemsNoInsights(reply: Completion, parse: string -> Option<Json>, now: nat -> nat)
    requires ParsedItems(reply, parse) == Some([])
    ensures InsightsFromReply(reply, parse, now) == []
  {
    assert Normalise([], now) == Some([]);
  }

  /** The insights depend on the reply only through whether it has content
      and what its content cleans to. */
  lemma SameCleanedSameInsights(a: Completion, b: Completion, parse: string -> Option<Json>, now: nat -> nat)
    requires HasContent(a) && HasContent(b)
    requires StripFences(a.content.value) == StripFences(b.content.value)
    ensures InsightsFromReply(a, parse, now) == InsightsFromReply(b, parse, now)
  {
    SameCleanedSameItems(a, b, parse);
    SameItemsSameInsights(a, b, parse, now);
  }

  lemma SameCleanedSameItems(a: Completion, b: Completion, parse: string -> Option<Json>)
    requires HasContent(a) && HasContent(b)
    requires StripFences(a.content.value) == StripFences(b.content.value)
    ensures ParsedItems(a, parse) == ParsedItems(b, parse)
  {
  }

  lemma SameItemsSameInsights(a: Completion, b: Completion, parse: string -> Option<Json>, now: nat -> nat)
    requires ParsedItems(a, parse) == ParsedItems(b, parse)
    ensures InsightsFromReply(a, parse, now) == InsightsFromReply(b, parse, now)
  {
  }

  /** A fenced reply, tagged json or not and with white space around, cleans to
      the same text as its bare body, as long as the body does not itself open
      with a fence. */
  lemma FencedReplyCleansToBody(lead: string, tag: string, ws1: string, body: string, ws2: string, trail: string)
    requires AllSpace(lead) && AllSpace(ws1) && AllSpace(ws2) && AllSpace(trail)
    requires Trimmed(body) && !StartsWith(body, Fence)
    requires tag == "json" || (tag == [] && !StartsWith(ws1 + body, "json"))
    ensures StripFences(lead + Fence + tag + ws1 + body + ws2 + Fence + trail) == body == StripFences(body)
  {
    var fenced := lead + Fence + tag + ws1 + body + ws2 + Fence + trail;
    if tag == "json" {
      assert fenced == lead + JsonFence + ws1 + body + ws2 + Fence + trail;
      JsonFencedReply(lead, ws1, body, ws2, trail);
    } else {
      assert fenced == lead + Fence + ws1 + body + ws2 + Fence + trail;
      PlainFencedReply(lead, ws1, body, ws2, trail);
    }
    TrimOfTrimmed(body);
    UnfencedReplyOnlyTrimmed(body);
  }

  /** Wrapping a non-empty reply in a code fence, tagged json or not, and in
      white space does not change the insights. */
  lemma FencedReplySameInsights(parse: string -> Option<Json>, now: nat -> nat,
                                lead: string, tag: string, ws1: string, body: string, ws2: string, trail: string)
    requires AllSpace(lead) && AllSpace(ws1) && AllSpace(ws2) && AllSpace(trail)
    requires body != [] && Trimmed(body) && !StartsWith(body, Fence)
    requires tag == "json" || (tag == [] && !StartsWith(ws1 + body, "json"))
    ensures InsightsFromReply(Replied(Some(lead + Fence + tag + ws1 + body + ws2 + Fence + trail)), parse, now)
         == InsightsFromReply(Replied(Some(body)), parse, now)
  {
    var fenced := lead + Fence + tag + ws1 + body + ws2 + Fence + trail;
    FencedReplyCleansToBody(lead, tag, ws1, body, ws2, trail);
    assert |fenced| >= |body| > 0;
    SameCleanedSameInsights(Replied(Some(fenced)), Replied(Some(body)), parse, now);
  }

  /** `categorizeExpense`: the trimmed reply when it is exactly one of the
      seven categories, otherwise, and on any failure, 'Other'. */
  function Categorize(reply: Completion): (c: string)
    ensures IsCategory(c)
    ensures c != "Other" ==> reply.Replied? && reply.content.Some? && Trim(reply.content.value) == c
    ensures reply.Replied? && reply.content.Some? && IsCategory(Trim(reply.content.value)) ==>
      c == Trim(reply.content.value)
  {
    if reply.Replied? && reply.content.Some? && IsCategory(Trim(reply.content.value))
    then Trim(reply.content.value)
    else "Other"
  }

  /** A category name with white space around it is accepted as that name. */
  lemma CategorizePadded(lead: string, name: string, trail: string)
    requires AllSpace(lead) && AllSpace(trail) && IsCategory(name)
    ensures Categorize(Replied(Some(lead + name + trail))) == name
  {
    CategoryIsTrimmed(name);
    TrimPadded(lead, name, trail);
  }

  /** A category written in another case is not recognised: a reply that
      starts with a lower-case letter gives 'Other'. */
  lemma CategorizeIsCaseSensitive(t: string)
    requires Trimmed(t) && t != [] && 'a' <= t[0] <= 'z'
    ensures Categorize(Replied(Some(t))) == "Other"
  {
    TrimOfTrimmed(t);
    if IsCategory(t) {
      CategoryCapitalised(t);
    }
  }

  const AnswerOpening := "I need an API key to provide detailed "
    + "AI analysis. Currently, you have "
  const AnswerClosing := " in expenses. To get personalized AI "
    + "answers, please add your OpenRouter API "
    + "key to the .env.local file."

  /** The answer behind the key gate: the total in rupees, with two decimals. */
  function KeyMissingAnswer(total: real): (s: string)
    ensures Trimmed(s)
  {
    AnswerAroundTrimmed([Rupee] + ToFixed2(total));
    AnswerOpening + [Rupee] + ToFixed2(total) + AnswerClosing
  }

  /** Whatever amount text sits between the opening and the closing sentence,
      the answer starts and ends with a non-space character. */
  lemma AnswerAroundTrimmed(amount: string)
    ensures Trimmed(AnswerOpening + amount + AnswerClosing)
  {
    assert AnswerOpening[0] == 'I' && AnswerClosing[|AnswerClosing| - 1] == '.';
    TrimmedBetween(AnswerOpening, amount, AnswerClosing);
  }

  const Apology := "I'm unable to provide a detailed answer "
    + "at the moment. Please try refreshing "
    + "the insights or check your connection."

  /** `generateAIAnswer`: the key-missing sentence with the total behind the
      gate; otherwise the trimmed reply, or the apology when the call fails or
      the content is absent or empty. Every answer is trimmed. */
  function GenerateAIAnswer(env: Env, context: seq<Expense>, reply: Completion): (answer: string)
    ensures KeyMissing(env) ==> answer == KeyMissingAnswer(TotalAmount(context))
    ensures !KeyMissing(env) && HasContent(reply) ==> answer == Trim(reply.content.value)
    ensures !KeyMissing(env) && !HasContent(reply) ==> answer == Apology
    ensures Trimmed(answer)
  {
    if KeyMissing(env) then KeyMissingAnswer(TotalAmount(context))
    else if HasContent(reply) then Trim(reply.content.value)
    else
      assert Apology[0] == 'I' && Apology[|Apology| - 1] == '.';
      Apology
  }

  /** A reply of white space only passes the emptiness check and comes back as
      the empty answer. */
  lemma BlankReplyGivesEmptyAnswer(env: Env, context: seq<Expense>, text: string)
    requires !KeyMissing(env) && text != [] && AllSpace(text)
    ensures GenerateAIAnswer(env, context, Replied(Some(text))) == ""
  {
    TrimEmptyIffAllSpace(text);
  }
}
