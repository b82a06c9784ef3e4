/** The `forEach` of the fill script, once each record's target is known: records run
    in order, each resolved one writes its value and dispatches `input` then
    `change`, and the first exception ends the run with the earlier writes kept. */
module FillRun {
  import opened JsText
  import opened Dom

  /** How one record ends: at an element, at nothing (null or undefined), or in an
      exception thrown while looking for the element or writing into it. */
  datatype Lookup = Found(p: Path) | NotFound | Threw

  /** One record as the run sees it: its lookup and its `associatedValue`. */
  datatype Attempt = Attempt(target: Lookup, value: string)

  datatype EventKind = InputEvent | ChangeEvent

  datatype Event = Event(kind: EventKind, target: Path, bubbles: bool)

  /** The part of the page the fill script changes: element values and the events
      dispatched so far. */
  datatype FillState = FillState(values: map<Path, string>, events: seq<Event>)

  /** Writing `v` into the element at `p`, then dispatching a bubbling `input` and a
      bubbling `change` event at it. */
  function Write(s: FillState, p: Path, v: string): FillState {
    FillState(s.values[p := v], s.events + [Event(InputEvent, p, true), Event(ChangeEvent, p, true)])
  }

  /** The effect of one record that does not throw: a write where it reached an
      element, nothing otherwise. */
  function Apply(s: FillState, a: Attempt): FillState {
    match a.target
    case Found(p) => Write(s, p, a.value)
    case _ => s
  }

  datatype Run = Completed(state: FillState) | Aborted(state: FillState)

  function RunAttempts(s: FillState, atts: seq<Attempt>): Run {
    if atts == [] then Completed(s)
    else
      match RunAttempts(s, atts[..|atts| - 1])
      case Aborted(t) => Aborted(t)
      case Completed(t) =>
        var a := atts[|atts| - 1];
        if a.target.Threw? then Aborted(t) else Completed(Apply(t, a))
  }

  lemma RunAttemptsStep(s: FillState, atts: seq<Attempt>, k: nat)
    requires k < |atts|
    ensures RunAttempts(s, atts[..k + 1]) ==
      match RunAttempts(s, atts[..k])
      case Aborted(t) => Aborted(t)
      case Completed(t) => if atts[k].target.Threw? then Aborted(t) else Completed(Apply(t, atts[k]))
  {
    assert atts[..k + 1][..k] == atts[..k] && atts[..k + 1][k] == atts[k];
  }

  /** Once an attempt throws, the run stays aborted with the state it had. */
  lemma {:induction false} RunAttemptsAbortKeeps(s: FillState, atts: seq<Attempt>, k: nat)
    requires 0 < k <= |atts|
    requires RunAttempts(s, atts[..k - 1]).Completed?
    requires atts[k - 1].target.Threw?
    ensures RunAttempts(s, atts) == Aborted(RunAttempts(s, atts[..k - 1]).state)
    decreases |atts|
  {
    assert atts[..k][..k - 1] == atts[..k - 1] && atts[..k][k - 1] == atts[k - 1];
    if k < |atts| {
      var init := atts[..|atts| - 1];
      assert init[..k - 1] == atts[..k - 1] && init[k - 1] == atts[k - 1];
      RunAttemptsAbortKeeps(s, init, k);
    } else {
      assert atts[..k] == atts;
    }
  }

  /** The run reaches its end exactly when no attempt throws. */
  lemma {:induction false} RunCompletesIff(s: FillState, atts: seq<Attempt>)
    ensures RunAttempts(s, atts).Completed? <==> forall k :: 0 <= k < |atts| ==> !atts[k].target.Threw?
  {
    if atts != [] {
      var init := atts[..|atts| - 1];
      RunCompletesIff(s, init);
      assert forall k :: 0 <= k < |init| ==> init[k] == atts[k];
    }
  }

  /** The index of the first attempt that throws, or the number of attempts. */
  function FirstThrow(atts: seq<Attempt>): (n: nat)
    ensures n <= |atts| && (n < |atts| ==> atts[n].target.Threw?)
    ensures forall k :: 0 <= k < n ==> !atts[k].target.Threw?
  {
    if atts == [] then 0
    else if atts[0].target.Threw? then 0
    else 1 + FirstThrow(atts[1..])
  }

  /** A run is the run of the attempts before the first one that throws, and it
      aborts exactly when some attempt throws. */
  lemma {:induction false} RunUpToFirstThrow(s: FillState, atts: seq<Attempt>)
    ensures var n := FirstThrow(atts);
      RunAttempts(s, atts[..n]).Completed? &&
      RunAttempts(s, atts).state == RunAttempts(s, atts[..n]).state &&
      (RunAttempts(s, atts).Completed? <==> n == |atts|)
  {
    var n := FirstThrow(atts);
    RunCompletesIff(s, atts[..n]);
    if n < |atts| {
      RunAttemptsAbortKeeps(s, atts, n + 1);
    } else {
      assert atts[..n] == atts;
    }
  }

  /** The elements the attempts reach, in order. */
  function Targets(atts: seq<Attempt>): seq<Path> {
    if atts == [] then []
    else Targets(atts[..|atts| - 1]) + match atts[|atts| - 1].target case Found(p) => [p] case _ => []
  }

  /** One bubbling `input` and then one bubbling `change` per target. */
  function EventsFor(ts: seq<Path>): seq<Event> {
    if ts == [] then []
    else EventsFor(ts[..|ts| - 1]) + [Event(InputEvent, ts[|ts| - 1], true), Event(ChangeEvent, ts[|ts| - 1], true)]
  }

  /** Event `2j` is the `input` and event `2j + 1` the `change` of the `j`-th target;
      both bubble, and there is nothing else. */
  lemma {:induction false} EventsForShape(ts: seq<Path>)
    ensures |EventsFor(ts)| == 2 * |ts|
    ensures forall j :: 0 <= j < |ts| ==>
      EventsFor(ts)[2 * j] == Event(InputEvent, ts[j], true) &&
      EventsFor(ts)[2 * j + 1] == Event(ChangeEvent, ts[j], true)
  {
    if ts != [] {
      var init := ts[..|ts| - 1];
      EventsForShape(init);
      assert forall j :: 0 <= j < |init| ==> init[j] == ts[j];
    }
  }

  /** The value the last attempt reaching `p` writes there, if any. */
  function LastWrite(atts: seq<Attempt>, p: Path): Option<string> {
    if atts == [] then None
    else if atts[|atts| - 1].target == Found(p) then Some(atts[|atts| - 1].value)
    else LastWrite(atts[..|atts| - 1], p)
  }

  /** LastWrite is absent exactly when no attempt reaches `p`. */
  lemma {:induction false} LastWriteNone(atts: seq<Attempt>, p: Path)
    ensures LastWrite(atts, p).None? <==> forall k :: 0 <= k < |atts| ==> atts[k].target != Found(p)
  {
    if atts != [] {
      var init := atts[..|atts| - 1];
      LastWriteNone(init, p);
      assert forall k :: 0 <= k < |init| ==> init[k] == atts[k];
    }
  }

  /** LastWrite is the value of an attempt that reaches `p` and after which no
      attempt reaches `p`. */
  lemma {:induction false} LastWriteSome(atts: seq<Attempt>, p: Path)
    requires LastWrite(atts, p).Some?
    ensures exists k :: 0 <= k < |atts| && atts[k] == Attempt(Found(p), LastWrite(atts, p).value) &&
                        forall j :: k < j < |atts| ==> atts[j].target != Found(p)
  {
    var n := |atts| - 1;
    if atts[n].target != Found(p) {
      var init := atts[..n];
      LastWriteSome(init, p);
      var k :| 0 <= k < |init| && init[k] == Attempt(Found(p), LastWrite(init, p).value) &&
        forall j :: k < j < |init| ==> init[j].target != Found(p);
      assert init[k] == atts[k];
      forall j | k < j < |atts| ensures atts[j].target != Found(p) {
        if j < n {
          assert init[j] == atts[j];
        }
      }
    }
  }

  /** A run that reaches its end leaves every reached element holding the value of
      the last attempt that reached it and every other element as it was, and
      appends an `input` and a `change` event per reached element, in order. */
  lemma {:induction false} CompletedRunEffect(s: FillState, atts: seq<Attempt>)
    requires RunAttempts(s, atts).Completed?
    ensures var t := RunAttempts(s, atts).state;
      t.events == s.events + EventsFor(Targets(atts)) &&
      forall p :: (LastWrite(atts, p).Some? ==> p in t.values && t.values[p] == LastWrite(atts, p).value) &&
                  (LastWrite(atts, p).None? ==> (p in t.values <==> p in s.values) &&
                                                (p in s.values ==> t.values[p] == s.values[p]))
  {
    if atts != [] {
      var init := atts[..|atts| - 1];
      CompletedRunEffect(s, init);
      var ts := Targets(init);
      match atts[|atts| - 1].target
      case Found(q) =>
        assert Targets(atts) == ts + [q];
        assert (ts + [q])[..|ts + [q]| - 1] == ts;
      case NotFound =>
        assert Targets(atts) == ts;
      case Threw =>
        assert false;
    }
  }
}
