/** The fill script injected into the page: locate the chosen form, then for every
    enriched record find a target element through the label, id and name chain,
    write the value and dispatch `input` and `change`. */
module FormFiller {
  import opened JsText
  import opened Dom
  import opened CssSelector
  import opened FormScanner
  import opened FillRun

  /** One record of the enrichment response. */
  datatype EnrichedField = EnrichedField(name: string, labelText: string, placeholder: string,
                                         id: string, associatedValue: string)

  /** The form a fill or a highlight works on: the element with that id, failing
      that the form whose position is the id read as a number. */
  function LocateForm(root: Node, formId: string): Option<Path> {
    match GetElementById(root, formId)
    case Some(p) => Some(p)
    case None =>
      match ParseIndex(formId)
      case Some(i) => if i < |Forms(root)| then Some(Forms(root)[i]) else None
      case None => None
  }

  /** The label step for a truthy label: a tree walker over the text of
      `document.forms[0]` (a TypeError when there is no form) finds the first text
      containing the label; the first input or textarea under the parent of the
      element holding that text is the candidate. */
  function LabelLookup(root: Node, text: string): Lookup
    requires text != ""
  {
    if |Forms(root)| == 0 then Threw
    else match QueryDescendant(root, Forms(root)[0], TextContaining(text))
      case None => NotFound
      case Some(t) =>
        if t == [] || Parent(t) == [] then NotFound
        else match QueryDescendant(root, Parent(Parent(t)), TextControl)
          case Some(p) => Found(p)
          case None => NotFound
  }

  /** The id step: the first element inside the form that the escaped id, read as
      an id selector, selects; a selector that does not parse throws. */
  function IdLookup(root: Node, form: Path, id: string): Lookup {
    match ReadIdSelector(Escape(id))
    case SyntaxError => Threw
    case Selects(v) =>
      match QueryDescendant(root, form, ElementWithId(v))
      case Some(p) => Found(p)
      case None => NotFound
  }

  /** The name step: the first element inside the form that the name, quoted into
      an attribute selector, selects; a selector that does not parse throws. */
  function NameLookup(root: Node, form: Path, name: string): Lookup {
    match ReadNameSelector(name)
    case SyntaxError => Threw
    case Selects(v) =>
      match QueryDescendant(root, form, ElementWithName(v))
      case Some(p) => Found(p)
      case None => NotFound
  }

  /** The candidate before the name step: the label candidate, replaced by the id
      lookup when the trimmed id is non-empty. */
  function Candidate(root: Node, form: Path, f: EnrichedField): Lookup {
    var byLabel := if f.labelText != "" then LabelLookup(root, f.labelText) else NotFound;
    if byLabel.Threw? then Threw
    else if Trim(f.id) != "" then IdLookup(root, form, f.id)
    else byLabel
  }

  /** The chain for one record: the name lookup runs only when no candidate remains. */
  function Resolve(root: Node, form: Path, f: EnrichedField): Lookup {
    var c := Candidate(root, form, f);
    if c.NotFound? then NameLookup(root, form, f.name) else c
  }

  function AsLookup(found: Option<Path>): Lookup {
    if found.Some? then Found(found.value) else NotFound
  }

  /** Assigning a non-empty string to the `value` of a file input throws; every
      other element takes any string. */
  predicate RejectsValue(root: Node, p: Path, v: string) {
    IsElementAt(root, p) && NodeAt(root, p).value.tag == InputTag &&
    NodeAt(root, p).value.kind == "file" && v != ""
  }

  /** How one record ends: the element its chain reaches, nothing, or an exception
      thrown by the chain or by the write into the reached element. */
  function RecordOutcome(root: Node, form: Path, f: EnrichedField): Lookup {
    var t := Resolve(root, form, f);
    if t.Found? && RejectsValue(root, t.p, f.associatedValue) then Threw else t
  }

  /** Each record with how it ends. */
  function Attempts(root: Node, form: Path, recs: seq<EnrichedField>): seq<Attempt> {
    seq(|recs|, k requires 0 <= k < |recs| => Attempt(RecordOutcome(root, form, recs[k]), recs[k].associatedValue))
  }

  /** What `fulfillEnrichedScripts` returns and leaves behind. */
  function FulfillSpec(root: Node, formId: string, recs: seq<EnrichedField>, s: FillState): (bool, FillState) {
    match LocateForm(root, formId)
    case None => (false, s)
    case Some(form) =>
      match RunAttempts(s, Attempts(root, form, recs))
      case Completed(t) => (true, t)
      case Aborted(t) => (false, t)
  }

  class Page {
    const root: Node
    var values: map<Path, string>
    var borders: map<Path, string>
    var events: seq<Event>
    var scrolledTo: Option<Path>

    constructor (root: Node, values: map<Path, string>, borders: map<Path, string>)
      ensures this.root == root && this.values == values && this.borders == borders
      ensures events == [] && scrolledTo == None
    {
      this.root := root;
      this.values := values;
      this.borders := borders;
      events := [];
      scrolledTo := None;
    }

    function State(): FillState
      reads this
    {
      FillState(values, events)
    }

    /** `fulfillEnrichedScripts(formId, enrichedFields)` */
    method Fulfill(formId: string, recs: seq<EnrichedField>) returns (ok: bool)
      modifies this
      ensures (ok, State()) == FulfillSpec(root, formId, recs, old(State()))
      ensures borders == old(borders) && scrolledTo == old(scrolledTo)
    {
      var located := LocateForm(root, formId);
      if located.None? {
        return false;
      }
      var form := located.value;
      ghost var s0 := State();
      ghost var atts := Attempts(root, form, recs);
      for k := 0 to |recs|
        invariant borders == old(borders) && scrolledTo == old(scrolledTo)
        invariant RunAttempts(s0, atts[..k]) == Completed(State())
      {
        RunAttemptsStep(s0, atts, k);
        var target := FindTarget(form, recs[k]);
        if target.Threw? {
          RunAttemptsAbortKeeps(s0, atts, k + 1);
          return false;
        }
        var thrown := WriteRecord(target, recs[k].associatedValue);
        if thrown {
          RunAttemptsAbortKeeps(s0, atts, k + 1);
          return false;
        }
        assert atts[k] == Attempt(target, recs[k].associatedValue);
      }
      assert atts[..|recs|] == atts;
      return true;
    }

    /** The write and the two dispatches for a record whose chain did not throw; the
        write itself throws, changing nothing, when the element refuses the value. */
    method WriteRecord(target: Lookup, value: string) returns (thrown: bool)
      requires !target.Threw?
      modifies this
      ensures thrown <==> target.Found? && RejectsValue(root, target.p, value)
      ensures State() == if thrown then old(State()) else Apply(old(State()), Attempt(target, value))
      ensures borders == old(borders) && scrolledTo == old(scrolledTo)
    {
      thrown := false;
      if target.Found? {
        var inputElement := target.p;
        if RejectsValue(root, inputElement, value) {
          return true;
        }
        values := values[inputElement := value];
        events := events + [Event(InputEvent, inputElement, true)];
        events := events + [Event(ChangeEvent, inputElement, true)];
      }
    }

    /** The `currentFormField` chain of one record, with a thrown exception as `Threw`. */
    method FindTarget(form: Path, rec: EnrichedField) returns (r: Lookup)
      ensures r == Resolve(root, form, rec)
    {
      r := FindCandidate(form, rec);
      if r.NotFound? {
        r := FindByName(form, rec.name);
      }
    }

    /** The label step, then the id step when the trimmed id is non-empty. */
    method FindCandidate(form: Path, rec: EnrichedField) returns (r: Lookup)
      ensures r == Candidate(root, form, rec)
    {
      r := NotFound;
      if rec.labelText != "" {
        r := FindByLabel(rec.labelText);
        if r.Threw? {
          return;
        }
      }
      if Trim(rec.id) != "" {
        r := FindById(form, rec.id);
      }
    }

    /** The id step: the escaped id read as an id selector inside the form. */
    method FindById(form: Path, id: string) returns (r: Lookup)
      ensures r == IdLookup(root, form, id)
    {
      var selector := ReadIdSelector(Escape(id));
      if selector.SyntaxError? {
        return Threw;
      }
      r := AsLookup(QueryDescendant(root, form, ElementWithId(selector.value)));
    }

    /** The name step: the name quoted into an attribute selector inside the form. */
    method FindByName(form: Path, name: string) returns (r: Lookup)
      ensures r == NameLookup(root, form, name)
    {
      var selector := ReadNameSelector(name);
      if selector.SyntaxError? {
        return Threw;
      }
      r := AsLookup(QueryDescendant(root, form, ElementWithName(selector.value)));
    }

    /** The label step: the first input or textarea under the grandparent of the first
        text node of the first form containing `text`; it throws when the page has no form. */
    method FindByLabel(text: string) returns (r: Lookup)
      requires text != ""
      ensures r == LabelLookup(root, text)
    {
      if |Forms(root)| == 0 {
        return Threw;
      }
      var textNode := QueryDescendant(root, Forms(root)[0], TextContaining(text));
      var current: Option<Path> := None;
      if textNode.Some? && textNode.value != [] && Parent(textNode.value) != [] {
        current := QueryDescendant(root, Parent(Parent(textNode.value)), TextControl);
      }
      r := AsLookup(current);
    }

    /** `highlightFormById(formId)`: clear the border of every form, then scroll to
        the located element. */
    method HighlightFormById(formId: string)
      modifies this
      ensures borders == ClearedBorders(old(borders), Forms(root))
      ensures scrolledTo == (if LocateForm(root, formId).Some? then LocateForm(root, formId) else old(scrolledTo))
      ensures values == old(values) && events == old(events)
    {
      var forms := Forms(root);
      for i := 0 to |forms|
        invariant values == old(values) && events == old(events) && scrolledTo == old(scrolledTo)
        invariant borders == ClearedBorders(old(borders), forms[..i])
      {
        assert forms[..i + 1][..i] == forms[..i];
        borders := borders[forms[i] := ""];
      }
      assert forms[..|forms|] == forms;
      var form := LocateForm(root, formId);
      if form.Some? {
        scrolledTo := form;
      }
    }
  }

  /** The borders after `form.style.border = ""` on each of `forms` in turn: every one
      of them has an empty border, every other element keeps its own. */
  function ClearedBorders(borders: map<Path, string>, forms: seq<Path>): (r: map<Path, string>)
    ensures forall p :: p in forms ==> p in r && r[p] == ""
    ensures forall p :: p !in forms ==> (p in r <==> p in borders) && (p in r ==> r[p] == borders[p])
  {
    if forms == [] then borders
    else ClearedBorders(borders, forms[..|forms| - 1])[forms[|forms| - 1] := ""]
  }

  // ---------------------------------------------------------------------------
  // Form lookup

  /** The form is the first element whose id is `formId`; only when there is none is
      `formId` read as an index into `document.forms`. */
  lemma LocateFormSpec(root: Node, formId: string)
    ensures LocateForm(root, formId).Some? ==>
      var p := LocateForm(root, formId).value;
      IsElementAt(root, p) &&
      ((formId != "" && NodeAt(root, p).value.idAttr == Some(formId) &&
        forall r :: Before(r, p) ==> !SelectsAt(root, ElementWithId(formId), r)) ||
       ((formId == "" || forall r :: !SelectsAt(root, ElementWithId(formId), r)) &&
        ParseIndex(formId).Some? && ParseIndex(formId).value < |Forms(root)| &&
        p == Forms(root)[ParseIndex(formId).value]))
    ensures LocateForm(root, formId).None? ==>
      (formId == "" || forall r :: !SelectsAt(root, ElementWithId(formId), r)) &&
      (ParseIndex(formId).None? || ParseIndex(formId).value >= |Forms(root)|)
  {
    FirstMatchCorrect(root, ElementWithId(formId));
    if LocateForm(root, formId).Some? && GetElementById(root, formId).None? {
      FormsExact(root, LocateForm(root, formId).value);
    }
  }

  /** A descriptor from the scanner locates its own form again, provided no other
      element carries the descriptor's id. */
  lemma ScanThenLocate(root: Node, i: nat)
    requires i < |Forms(root)|
    requires forall r :: SelectsAt(root, ElementWithId(DescribeForm(root, i).id), r) ==> r == Forms(root)[i]
    ensures LocateForm(root, DescribeForm(root, i).id) == Some(Forms(root)[i])
  {
    var f := Forms(root)[i];
    DescribeFormSpec(root, i);
    var id := DescribeForm(root, i).id;
    FirstMatchCorrect(root, ElementWithId(id));
    if NodeAt(root, f).value.idAttr.GetOr("") != "" {
      assert SelectsAt(root, ElementWithId(id), f);
    } else {
      ParseIndexOfNatToString(i);
    }
  }

  // ---------------------------------------------------------------------------
  // The chain

  /** The label step finds an element only when the page has a form, the first text
      node inside the first form that contains the label sits at least two levels
      below the root, and the element is the first input or textarea strictly under
      that text node's grandparent (the parent of the label's element). */
  lemma LabelLookupSound(root: Node, text: string)
    requires text != ""
    ensures LabelLookup(root, text).Found? ==>
      var p := LabelLookup(root, text).p;
      |Forms(root)| > 0 &&
      var t := QueryDescendant(root, Forms(root)[0], TextContaining(text));
      t.Some? && |t.value| > |Forms(root)[0]| && t.value[..|Forms(root)[0]|] == Forms(root)[0] &&
      SelectsAt(root, TextContaining(text), t.value) &&
      |t.value| >= 2 &&
      var g := Parent(Parent(t.value));
      |p| > |g| && p[..|g|] == g && IsElementAt(root, p) && Matches(TextControl, NodeAt(root, p).value) &&
      forall r :: r != [] && Before(r, p[|g|..]) ==> !SelectsAt(root, TextControl, g + r)
  {
    if LabelLookup(root, text).Found? {
      FormsExact(root, Forms(root)[0]);
      QueryDescendantCorrect(root, Forms(root)[0], TextContaining(text));
      var t := QueryDescendant(root, Forms(root)[0], TextContaining(text));
      var g := Parent(Parent(t.value));
      QueryDescendantCorrect(root, g, TextControl);
    }
  }

  /** The converse of LabelLookupSound: the label step throws exactly when the page
      has no form; otherwise, when the first text of the first form containing the
      label sits at least two levels below the root and an input or textarea lies
      under its grandparent, the first such control is found, and in every other case
      nothing is found. */
  lemma LabelLookupComplete(root: Node, text: string)
    requires text != ""
    ensures LabelLookup(root, text).Threw? <==> |Forms(root)| == 0
    ensures |Forms(root)| > 0 ==>
      var t := QueryDescendant(root, Forms(root)[0], TextContaining(text));
      if t.Some? && |t.value| >= 2 && QueryDescendant(root, Parent(Parent(t.value)), TextControl).Some?
      then LabelLookup(root, text) == Found(QueryDescendant(root, Parent(Parent(t.value)), TextControl).value)
      else LabelLookup(root, text) == NotFound
  {
    if |Forms(root)| > 0 {
      var t := QueryDescendant(root, Forms(root)[0], TextContaining(text));
      if t.Some? && t.value != [] {
        assert |Parent(t.value)| == |t.value| - 1;
      }
    }
  }

  /** The first text node of the first form that contains the label is the first
      such node in tree order: no earlier one inside that form contains it. */
  lemma LabelTextFirst(root: Node, text: string)
    requires text != "" && |Forms(root)| > 0
    ensures var f := Forms(root)[0];
      var t := QueryDescendant(root, f, TextContaining(text));
      t.Some? ==> forall r :: r != [] && Before(r, t.value[|f|..]) ==> !SelectsAt(root, TextContaining(text), f + r)
  {
    FormsExact(root, Forms(root)[0]);
    QueryDescendantCorrect(root, Forms(root)[0], TextContaining(text));
  }

  /** The id step finds only an element inside the form whose id is the one the
      selector reads. */
  lemma IdLookupSound(root: Node, form: Path, id: string)
    requires IsElementAt(root, form)
    ensures IdLookup(root, form, id).Found? ==>
      var p := IdLookup(root, form, id).p;
      IsElementAt(root, p) && |p| > |form| && p[..|form|] == form &&
      ReadIdSelector(Escape(id)).Selects? && NodeAt(root, p).value.idAttr == Some(ReadIdSelector(Escape(id)).value)
  {
    if ReadIdSelector(Escape(id)).Selects? {
      QueryDescendantCorrect(root, form, ElementWithId(ReadIdSelector(Escape(id)).value));
    }
  }

  /** The name step finds only an element inside the form whose name is the one the
      selector reads. */
  lemma NameLookupSound(root: Node, form: Path, name: string)
    requires IsElementAt(root, form)
    ensures NameLookup(root, form, name).Found? ==>
      var p := NameLookup(root, form, name).p;
      IsElementAt(root, p) && |p| > |form| && p[..|form|] == form &&
      ReadNameSelector(name).Selects? && NodeAt(root, p).value.nameAttr == Some(ReadNameSelector(name).value)
  {
    if ReadNameSelector(name).Selects? {
      QueryDescendantCorrect(root, form, ElementWithName(ReadNameSelector(name).value));
    }
  }

  /** A resolved element is an input or textarea found through a label, or an
      element inside the form whose id, or whose name, is the one the selector reads. */
  lemma ResolveSound(root: Node, form: Path, f: EnrichedField)
    requires IsElementAt(root, form)
    ensures Resolve(root, form, f).Found? ==>
      var p := Resolve(root, form, f).p;
      IsElementAt(root, p) &&
      (Matches(TextControl, NodeAt(root, p).value) ||
       (|p| > |form| && p[..|form|] == form &&
        ((ReadIdSelector(Escape(f.id)).Selects? && NodeAt(root, p).value.idAttr == Some(ReadIdSelector(Escape(f.id)).value)) ||
         (ReadNameSelector(f.name).Selects? && NodeAt(root, p).value.nameAttr == Some(ReadNameSelector(f.name).value)))))
  {
    IdLookupSound(root, form, f.id);
    NameLookupSound(root, form, f.name);
    if f.labelText != "" {
      LabelLookupSound(root, f.labelText);
    }
  }

  /** A non-blank id discards the label candidate, even when the id finds nothing;
      only an exception of the label step survives. */
  lemma IdReplacesLabel(root: Node, form: Path, f: EnrichedField)
    requires Trim(f.id) != ""
    requires f.labelText == "" || !LabelLookup(root, f.labelText).Threw?
    ensures Resolve(root, form, f) == Resolve(root, form, f.(labelText := ""))
    ensures IdLookup(root, form, f.id).NotFound? ==> Resolve(root, form, f) == NameLookup(root, form, f.name)
  {
  }

  /** Without an id, a label candidate is kept: the name is never consulted. */
  lemma LabelWithoutId(root: Node, form: Path, f: EnrichedField, q: Path)
    requires Trim(f.id) == "" && f.labelText != "" && LabelLookup(root, f.labelText) == Found(q)
    ensures forall n :: Resolve(root, form, f.(name := n)) == Found(q)
  {
  }

  /** The name lookup runs only when no candidate remains: once the label or id
      step has found an element, the name has no influence; when neither found one,
      the name alone decides. */
  lemma NameOnlyAsFallback(root: Node, form: Path, f: EnrichedField)
    ensures Candidate(root, form, f).Found? ==>
      forall n :: Resolve(root, form, f.(name := n)) == Candidate(root, form, f)
    ensures Candidate(root, form, f).NotFound? ==>
      forall n :: Resolve(root, form, f.(name := n)) == NameLookup(root, form, n)
  {
    forall n ensures Candidate(root, form, f.(name := n)) == Candidate(root, form, f) {
    }
  }

  /** An id made only of name and reserved characters, whose escaped form starts an
      identifier, reaches the first element of the form with exactly that id,
      whatever the label step found, as long as the label step did not throw. */
  lemma PlainIdFindsElement(root: Node, form: Path, f: EnrichedField)
    requires Trim(f.id) != "" && (f.labelText == "" || |Forms(root)| > 0)
    requires (forall i :: 0 <= i < |f.id| ==> Escapable(f.id[i]))
    requires EscapedIdStart(f.id)
    requires QueryDescendant(root, form, ElementWithId(f.id)).Some?
    ensures Resolve(root, form, f) == Found(QueryDescendant(root, form, ElementWithId(f.id)).value)
  {
    IdReplacesLabel(root, form, f);
    IdSelectorRoundTrip(f.id);
  }

  /** When the label and id steps leave no candidate, a name with no quote,
      backslash or newline reaches the form's first element, in tree order, whose
      name is the preprocessed name (QueryDescendantCorrect), or nothing when the
      form holds no such element; a name without U+0000 is its own preprocessed
      text. */
  lemma PlainNameFindsElement(root: Node, form: Path, f: EnrichedField)
    requires Candidate(root, form, f).NotFound?
    requires forall i :: 0 <= i < |f.name| ==> f.name[i] != '"' && f.name[i] != '\\' && !IsNewline(f.name[i])
    ensures Resolve(root, form, f) == AsLookup(QueryDescendant(root, form, ElementWithName(Preprocess(f.name))))
    ensures (forall i :: 0 <= i < |f.name| ==> f.name[i] != '\0') ==> Preprocess(f.name) == f.name
  {
    assert Resolve(root, form, f) == NameLookup(root, form, f.name);
    NameSelectorRoundTrip(f.name);
    if forall i :: 0 <= i < |f.name| ==> f.name[i] != '\0' {
      PreprocessClean(f.name);
    }
  }

  /** A label on a page without forms throws before the id or the name is tried. */
  lemma NoFormLabelThrows(root: Node, form: Path, f: EnrichedField)
    requires |Forms(root)| == 0 && f.labelText != ""
    ensures Resolve(root, form, f) == Threw
  {
  }

  /** An id starting with a digit makes the selector invalid: the record throws. */
  lemma DigitIdThrows(root: Node, form: Path, f: EnrichedField)
    requires f.labelText == "" && f.id != [] && '0' <= f.id[0] <= '9'
    ensures Resolve(root, form, f) == Threw
  {
    IdSelectorDigitStart(f.id);
    assert f.id[0] in f.id && !IsJsWhitespace(f.id[0]);
    assert Trim(f.id) != "" by {
      TrimEmpty(f.id);
    }
  }

  // ---------------------------------------------------------------------------
  // The whole fill

  /** `fulfillEnrichedScripts` returns false without touching the page when the
      form is not found; otherwise it returns true exactly when no record's chain
      throws and no reached element refuses its value, however many records match,
      including none. */
  lemma FulfillOkIff(root: Node, formId: string, recs: seq<EnrichedField>, s: FillState)
    ensures LocateForm(root, formId).None? ==> FulfillSpec(root, formId, recs, s) == (false, s)
    ensures LocateForm(root, formId).Some? ==>
      (FulfillSpec(root, formId, recs, s).0 <==>
       forall k :: 0 <= k < |recs| ==>
         var t := Resolve(root, LocateForm(root, formId).value, recs[k]);
         !t.Threw? && !(t.Found? && RejectsValue(root, t.p, recs[k].associatedValue)))
  {
    if LocateForm(root, formId).Some? {
      var form := LocateForm(root, formId).value;
      var atts := Attempts(root, form, recs);
      RunCompletesIff(s, atts);
      assert FulfillSpec(root, formId, recs, s).0 == RunAttempts(s, atts).Completed?;
      assert forall k :: 0 <= k < |recs| ==> atts[k].target == RecordOutcome(root, form, recs[k]);
    }
  }

  /** On a found form, `fulfillEnrichedScripts` leaves the page as the records
      before the first one that throws leave it (all of them when it returns true);
      CompletedRunEffect says what that is. */
  lemma FulfillEffect(root: Node, formId: string, recs: seq<EnrichedField>, s: FillState)
    requires LocateForm(root, formId).Some?
    ensures var atts := Attempts(root, LocateForm(root, formId).value, recs);
      var n := FirstThrow(atts);
      RunAttempts(s, atts[..n]).Completed? &&
      FulfillSpec(root, formId, recs, s) == (n == |recs|, RunAttempts(s, atts[..n]).state)
  {
    var atts := Attempts(root, LocateForm(root, formId).value, recs);
    assert FulfillSpec(root, formId, recs, s) == (RunAttempts(s, atts).Completed?, RunAttempts(s, atts).state);
    RunUpToFirstThrow(s, atts);
  }

  /** A name containing a double quote, with nothing before it that the string token
      treats specially, breaks out of `[name="..."]`: when the name is the record's
      only way to an element, the whole fill returns false and changes nothing. */
  lemma QuoteInNameFailsFill(root: Node, formId: string, f: EnrichedField, k: nat, s: FillState)
    requires LocateForm(root, formId).Some?
    requires f.labelText == "" && Trim(f.id) == ""
    requires k < |f.name| && f.name[k] == '"'
    requires forall i :: 0 <= i < k ==> f.name[i] != '\\' && !IsNewline(f.name[i]) && f.name[i] != '"'
    ensures FulfillSpec(root, formId, [f], s) == (false, s)
  {
    NameSelectorQuote(f.name, k);
    var form := LocateForm(root, formId).value;
    var atts := Attempts(root, form, [f]);
    assert FulfillSpec(root, formId, [f], s) == (RunAttempts(s, atts).Completed?, RunAttempts(s, atts).state);
    assert Candidate(root, form, f) == NotFound;
    assert atts[0].target == Threw;
    assert atts[..0] == [];
    assert RunAttempts(s, atts) == Aborted(s);
  }

  /** A record whose chain reaches a file input with a non-empty value throws at the
      write: the whole fill returns false and changes nothing. */
  lemma RejectedWriteFailsFill(root: Node, formId: string, f: EnrichedField, s: FillState)
    requires LocateForm(root, formId).Some?
    requires var t := Resolve(root, LocateForm(root, formId).value, f);
      t.Found? && IsElementAt(root, t.p) && NodeAt(root, t.p).value.tag == InputTag &&
      NodeAt(root, t.p).value.kind == "file"
    requires f.associatedValue != ""
    ensures FulfillSpec(root, formId, [f], s) == (false, s)
  {
    var form := LocateForm(root, formId).value;
    var atts := Attempts(root, form, [f]);
    assert atts[0].target == Threw;
    assert atts[..0] == [];
    assert RunAttempts(s, atts) == Aborted(s);
  }
}
