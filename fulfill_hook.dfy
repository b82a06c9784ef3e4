/** The `useFulfillForm` hook: it filters the scanned fields, reads the page text,
    asks the language model for the job details and then for the field values,
    and hands those to the fill script. Replies of the model, the tab lookups and
    the text the page yields are inputs; the requests the hook sends are recorded
    so that what they carry can be stated. */
module FulfillHook {
  import opened JsText
  import opened FormScanner
  import opened FillRun
  import opened FormFiller
  import opened Profiles

  // ---------------------------------------------------------------------------
  // Filtering the fields

  /** A field the model can be told something about: one of its hints is non-empty. */
  predicate HasHint(f: FieldDescriptor) {
    f.name != "" || f.placeholder != "" || f.id != "" || (f.labelText.Some? && f.labelText.value != "")
  }

  /** `sanitizeFormFields`: only the fields with some hint a model can use. */
  function SanitizeFormFields(fs: seq<FieldDescriptor>): (r: seq<FieldDescriptor>)
    ensures |r| <= |fs|
    ensures forall f :: f in r <==> f in fs && HasHint(f)
  {
    if fs == [] then []
    else
      assert fs == [fs[0]] + fs[1..];
      (if HasHint(fs[0]) then [fs[0]] else []) + SanitizeFormFields(fs[1..])
  }

  /** Every field with a hint is kept as often as it occurs; every other field is
      dropped. */
  lemma {:induction false} SanitizeCounts(fs: seq<FieldDescriptor>)
    ensures forall f :: multiset(SanitizeFormFields(fs))[f] == if HasHint(f) then multiset(fs)[f] else 0
  {
    if fs != [] {
      SanitizeCounts(fs[1..]);
      var head := if HasHint(fs[0]) then [fs[0]] else [];
      assert SanitizeFormFields(fs) == head + SanitizeFormFields(fs[1..]);
      assert fs == [fs[0]] + fs[1..];
      assert multiset(fs) == multiset([fs[0]]) + multiset(fs[1..]);
    }
  }

  /** The kept fields are the input's fields in their order. */
  lemma {:induction false} SanitizeOrder(fs: seq<FieldDescriptor>)
    ensures Subsequence(SanitizeFormFields(fs), fs)
  {
    if fs != [] {
      SanitizeOrder(fs[1..]);
      var rest := SanitizeFormFields(fs[1..]);
      if HasHint(fs[0]) {
        assert SanitizeFormFields(fs) == [fs[0]] + rest;
        assert ([fs[0]] + rest)[1..] == rest;
      } else {
        assert SanitizeFormFields(fs) == rest;
        SubsequenceSkip(rest, fs[1..], fs[0]);
      }
      assert fs == [fs[0]] + fs[1..];
    }
  }

  /** A list whose every field has a hint is kept whole. */
  lemma {:induction false} SanitizeKeepsHinted(fs: seq<FieldDescriptor>)
    requires forall i :: 0 <= i < |fs| ==> HasHint(fs[i])
    ensures SanitizeFormFields(fs) == fs
  {
    if fs != [] {
      var tail := fs[1..];
      assert forall i :: 0 <= i < |tail| ==> HasHint(tail[i]) by {
        assert forall i :: 0 <= i < |tail| ==> tail[i] == fs[i + 1];
      }
      SanitizeKeepsHinted(tail);
      assert HasHint(fs[0]);
      assert SanitizeFormFields(fs) == [fs[0]] + SanitizeFormFields(tail);
      assert fs == [fs[0]] + tail;
    }
  }

  /** Filtering twice is filtering once. */
  lemma {:induction false} SanitizeIdempotent(fs: seq<FieldDescriptor>)
    ensures SanitizeFormFields(SanitizeFormFields(fs)) == SanitizeFormFields(fs)
  {
    if fs != [] {
      SanitizeIdempotent(fs[1..]);
      var rest := SanitizeFormFields(fs[1..]);
      if HasHint(fs[0]) {
        assert SanitizeFormFields(fs) == [fs[0]] + rest;
        assert ([fs[0]] + rest)[1..] == rest && ([fs[0]] + rest)[0] == fs[0];
        assert SanitizeFormFields([fs[0]] + rest) == [fs[0]] + SanitizeFormFields(rest);
      } else {
        assert SanitizeFormFields(fs) == rest;
      }
    }
  }

  // ---------------------------------------------------------------------------
  // Cutting the job description

  /** `maxTokens`, compared against the length in UTF-16 code units. */
  const MaxContext: nat := 100000

  /** The context `enrichFormFields` sends: the description, cut to its first
      `MaxContext` code units when it is longer. */
  function TruncateContext(t: Utf16): (r: Utf16)
    ensures |r| == if |t| <= MaxContext then |t| else MaxContext
    ensures r == t[..|r|]
  {
    if |t| > MaxContext then t[..MaxContext] else t
  }

  /** Text within the bound passes unchanged, and cutting a cut text changes nothing. */
  lemma TruncateContextIdempotent(t: Utf16)
    ensures |t| <= MaxContext ==> TruncateContext(t) == t
    ensures TruncateContext(TruncateContext(t)) == TruncateContext(t)
  {
  }

  // ---------------------------------------------------------------------------
  // Replies and failures

  /** What a `catch` clause receives: an `Error` with its message, or anything else. */
  datatype Thrown = ErrorObject(message: string) | OtherThrown

  /** The message `fulfillForm` shows for what it caught. */
  function ErrorText(t: Thrown): (m: string)
    ensures t.ErrorObject? ==> m == t.message
    ensures t.OtherThrown? ==> m == "Something went wrong"
  {
    match t
    case ErrorObject(msg) => msg
    case OtherThrown => "Something went wrong"
  }

  /** The first choice of a `chat.completions.parse` call, or the reason its promise
      rejected. */
  datatype Reply<T> = Answered(cutForLength: bool, parsed: Option<T>) | Rejected(reason: Thrown)

  datatype Outcome<T> = Ok(value: T) | Fail(thrown: Thrown)

  /** The checks after each model call: a reply cut for length, then a missing parsed
      value, each throw an `Error`; a rejected call passes its reason on. */
  function Classify<T>(reply: Reply<T>, missing: string): (r: Outcome<T>)
    ensures r.Ok? <==> reply.Answered? && !reply.cutForLength && reply.parsed.Some?
    ensures r.Ok? ==> r.value == reply.parsed.value
    ensures reply.Answered? && reply.cutForLength ==> r == Fail(ErrorObject("Content too large"))
    ensures reply.Answered? && !reply.cutForLength && reply.parsed.None? ==> r == Fail(ErrorObject(missing))
    ensures reply.Rejected? ==> r == Fail(reply.reason)
  {
    match reply
    case Rejected(t) => Fail(t)
    case Answered(cut, parsed) =>
      if cut then Fail(ErrorObject("Content too large"))
      else if parsed.None? then Fail(ErrorObject(missing))
      else Ok(parsed.value)
  }

  /** `tabs[0]?.id` is used only when truthy: present and not 0. */
  predicate TabFound(tab: Option<int>) {
    tab.Some? && tab.value != 0
  }

  /** `getTabTextContent()` followed by the check in `fulfillForm`: no tab gives
      `undefined`, which the check turns into "Page context not found"; a script
      result that is missing or empty is "No HTML found". */
  function ReadPageText(tab: Option<int>, result: Option<string>): (r: Outcome<string>)
    ensures r.Ok? <==> TabFound(tab) && result.Some? && result.value != ""
    ensures r.Ok? ==> r.value == result.value
    ensures !TabFound(tab) ==> r == Fail(ErrorObject("Page context not found"))
    ensures TabFound(tab) && (result.None? || result.value == "") ==> r == Fail(ErrorObject("No HTML found"))
  {
    if !TabFound(tab) then Fail(ErrorObject("Page context not found"))
    else if result.None? || result.value == "" then Fail(ErrorObject("No HTML found"))
    else Ok(result.value)
  }

  // ---------------------------------------------------------------------------
  // The pipeline

  /** The parsed `JobDetails`; only the description is used afterwards. */
  datatype JobDetails = JobDetails(companyName: string, employmentType: string, experience: string,
                                   skills: seq<string>, description: Utf16)

  /** A request sent to the model: the page text for the job details, or the
      profile, the filtered fields and the cut description for the field values. */
  datatype Request =
    | JobRequest(pageText: string)
    | EnrichRequest(profile: Profile, fields: seq<FieldDescriptor>, context: Utf16)

  /** Everything outside the hook that one run depends on, in the order it is met. */
  datatype Environment = Environment(textTab: Option<int>, scriptText: Option<string>,
                                     jobReply: Reply<JobDetails>,
                                     enrichReply: Reply<seq<EnrichedField>>,
                                     fillTab: Option<int>)

  /** How far a run gets before the fill script: stopped by a failure, or ready to
      fill with the model's records; both with the requests sent on the way. */
  datatype Stage =
    | Stopped(requests: seq<Request>, failure: Thrown)
    | Ready(requests: seq<Request>, records: seq<EnrichedField>)

  /** The `try` block of `fulfillForm` up to the call of the fill script. */
  function Stages(form: FormDescriptor, profile: Profile, env: Environment): Stage {
    match ReadPageText(env.textTab, env.scriptText)
    case Fail(t) => Stopped([], t)
    case Ok(text) =>
      var job := [JobRequest(text)];
      match Classify(env.jobReply, "No job details found")
      case Fail(t) => Stopped(job, t)
      case Ok(details) =>
        var sent := job + [EnrichRequest(profile, SanitizeFormFields(form.fields), TruncateContext(details.description))];
        match Classify(env.enrichReply, "No enriched fields found")
        case Fail(t) => Stopped(sent, t)
        case Ok(recs) =>
          if !TabFound(env.fillTab) then Stopped(sent, ErrorObject("No active tab found"))
          else Ready(sent, recs)
  }

  /** The fill script is reached exactly when every earlier step succeeds, and then
      it gets the records of the enrichment reply. */
  lemma ReadyIff(form: FormDescriptor, profile: Profile, env: Environment)
    ensures Stages(form, profile, env).Ready? <==>
      TabFound(env.textTab) && env.scriptText.Some? && env.scriptText.value != "" &&
      env.jobReply.Answered? && !env.jobReply.cutForLength && env.jobReply.parsed.Some? &&
      env.enrichReply.Answered? && !env.enrichReply.cutForLength && env.enrichReply.parsed.Some? &&
      TabFound(env.fillTab)
    ensures Stages(form, profile, env).Ready? ==> Stages(form, profile, env).records == env.enrichReply.parsed.value
  {
  }

  /** The requests of a run: none without page text; then the page text for the job
      details; then, only once those arrived, one request carrying the filtered
      fields and the cut description, and nothing more. */
  lemma RequestsCarry(form: FormDescriptor, profile: Profile, env: Environment)
    ensures var reqs := Stages(form, profile, env).requests;
      |reqs| <= 2 &&
      (reqs == [] <==> ReadPageText(env.textTab, env.scriptText).Fail?) &&
      (reqs != [] ==> reqs[0] == JobRequest(env.scriptText.value)) &&
      (|reqs| == 2 <==> reqs != [] && Classify(env.jobReply, "No job details found").Ok?) &&
      (|reqs| == 2 ==> reqs[1] == EnrichRequest(profile, SanitizeFormFields(form.fields),
                                               TruncateContext(env.jobReply.parsed.value.description)) &&
                       |reqs[1].context| <= MaxContext &&
                       forall f :: f in reqs[1].fields ==> f in form.fields && HasHint(f))
  {
  }

  /** The failures a run can stop with: one of the hook's own messages, or the reason
      a model call was rejected. */
  lemma StopReasons(form: FormDescriptor, profile: Profile, env: Environment)
    requires Stages(form, profile, env).Stopped?
    ensures var t := Stages(form, profile, env).failure;
      t in {ErrorObject("Page context not found"), ErrorObject("No HTML found"),
            ErrorObject("Content too large"), ErrorObject("No job details found"),
            ErrorObject("No enriched fields found"), ErrorObject("No active tab found")} ||
      (env.jobReply.Rejected? && t == env.jobReply.reason) ||
      (env.enrichReply.Rejected? && t == env.enrichReply.reason)
  {
  }

  /** A truthy key: present and not empty. */
  predicate KeyPresent(key: Option<string>) {
    key.Some? && key.value != ""
  }

  /** The hook's state: the error shown, the spinner flag, and the requests sent. */
  class Hook {
    var error: string
    var loading: bool
    var requests: seq<Request>

    constructor ()
      ensures error == "" && !loading && requests == []
    {
      error := "";
      loading := false;
      requests := [];
    }

    /** `fulfillForm(form, profile)` with the key `key`, the outside world `env` and the
        page the fill script runs in. */
    method FulfillForm(key: Option<string>, form: FormDescriptor, profile: Profile,
                       env: Environment, page: Page)
      modifies this, page
      ensures !KeyPresent(key) ==>
        error == "Open AI key required" && loading == old(loading) && requests == old(requests) &&
        page.State() == old(page.State())
      ensures KeyPresent(key) ==>
        !loading && requests == old(requests) + Stages(form, profile, env).requests &&
        match Stages(form, profile, env)
        case Stopped(_, t) => error == ErrorText(t) && page.State() == old(page.State())
        case Ready(_, recs) =>
          var (ok, st) := FulfillSpec(page.root, form.id, recs, old(page.State()));
          page.State() == st && error == (if ok then "" else "Error form fulfilling")
      ensures page.borders == old(page.borders) && page.scrolledTo == old(page.scrolledTo)
    {
      if !KeyPresent(key) {
        error := "Open AI key required";
        return;
      }
      error := "";
      loading := true;
      var fields := SanitizeFormFields(form.fields);
      var stage := Stages(form, profile, env);
      var text := ReadPageText(env.textTab, env.scriptText);
      if text.Fail? {
        error := ErrorText(text.thrown);
      } else {
        requests := requests + [JobRequest(text.value)];
        var job := Classify(env.jobReply, "No job details found");
        if job.Fail? {
          error := ErrorText(job.thrown);
        } else {
          requests := requests + [EnrichRequest(profile, fields, TruncateContext(job.value.description))];
          var enriched := Classify(env.enrichReply, "No enriched fields found");
          if enriched.Fail? {
            error := ErrorText(enriched.thrown);
          } else if !TabFound(env.fillTab) {
            error := "No active tab found";
          } else {
            var ok := page.Fulfill(form.id, enriched.value);
            if !ok {
              error := "Error form fulfilling";
            }
          }
        }
      }
      assert requests == old(requests) + stage.requests;
      loading := false;
    }
  }
}
