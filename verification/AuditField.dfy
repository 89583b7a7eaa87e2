/**
 * Recovering which field of an audit signal is unsafe from a yes/no oracle alone. The unsafety heuristic is any
 * predicate that accepts the probe constant; the probes never see it, only the oracle's verdict on whole signals.
 */
module AuditField {
  import opened Wrappers
  import opened Json

  datatype Signal = Signal(
    actor: string, event: string, payloadHash: string, beforeSummary: string, afterSummary: string, refs: seq<string>)

  datatype Slot = Actor | Event | PayloadHash | BeforeSummary | AfterSummary | Refs

  const SCALAR_SCAN_ORDER := [Actor, Event, PayloadHash, BeforeSummary, AfterSummary]

  const SAFE_PROBE_VALUE := "sow-audit-signal-field-probe-safe-value"

  const SAFE_PROBE_SIGNAL :=
    Signal(SAFE_PROBE_VALUE, SAFE_PROBE_VALUE, SAFE_PROBE_VALUE, SAFE_PROBE_VALUE, SAFE_PROBE_VALUE, [])

  function SlotName(f: Slot): string {
    match f
    case Actor => "actor"
    case Event => "event"
    case PayloadHash => "payloadHash"
    case BeforeSummary => "beforeSummary"
    case AfterSummary => "afterSummary"
    case Refs => "refs"
  }

  // ---- the oracle -----------------------------------------------------------------------------

  function Scanned(s: Signal): seq<string> {
    [s.actor, s.event, s.payloadHash, s.beforeSummary, s.afterSummary] + s.refs
  }

  predicate IsSafe(s: Signal, unsafe: string -> bool) { forall i :: 0 <= i < |Scanned(s)| ==> !unsafe(Scanned(s)[i]) }

  method IsRedactionSafe(s: Signal, unsafe: string -> bool) returns (r: bool)
    ensures r == IsSafe(s, unsafe)
  {
    var scanned := Scanned(s);
    for i := 0 to |scanned|
      invariant forall k :: 0 <= k < i ==> !unsafe(scanned[k])
    {
      if unsafe(scanned[i]) { return false; }
    }
    return true;
  }

  /** The oracle answers as the scan does for this heuristic, which accepts the backdrop. */
  ghost predicate IsOracle(oracle: Signal -> bool, unsafe: string -> bool) {
    !unsafe(SAFE_PROBE_VALUE) && forall s: Signal :: oracle(s) <==> IsSafe(s, unsafe)
  }

  // ---- the probes -----------------------------------------------------------------------------

  function Probe(f: Slot, value: string): Signal {
    match f
    case Actor => SAFE_PROBE_SIGNAL.(actor := value)
    case Event => SAFE_PROBE_SIGNAL.(event := value)
    case PayloadHash => SAFE_PROBE_SIGNAL.(payloadHash := value)
    case BeforeSummary => SAFE_PROBE_SIGNAL.(beforeSummary := value)
    case AfterSummary => SAFE_PROBE_SIGNAL.(afterSummary := value)
    case Refs => SAFE_PROBE_SIGNAL.(refs := [value])
  }

  /** A probe is refused exactly when the one value it carries is unsafe. */
  lemma ProbeIsolates(f: Slot, value: string, oracle: Signal -> bool, unsafe: string -> bool)
    requires IsOracle(oracle, unsafe)
    ensures !oracle(Probe(f, value)) <==> unsafe(value)
  {
    var s := Scanned(Probe(f, value));
    match f
    case Actor => assert s[0] == value;
    case Event => assert s[1] == value;
    case PayloadHash => assert s[2] == value;
    case BeforeSummary => assert s[3] == value;
    case AfterSummary => assert s[4] == value;
    case Refs => assert s[5] == value;
  }

  // ---- which field trips ----------------------------------------------------------------------

  predicate ReadsUnsafe(v: Json, unsafe: string -> bool) { !v.Str? || unsafe(v.s) }

  /** A field trips when it cannot be read as its type or holds something unsafe. */
  predicate Trips(signal: Json, f: Slot, unsafe: string -> bool) {
    var v := Field(signal, SlotName(f));
    if f == Refs then
      v.None? || !v.value.Arr? || exists i :: 0 <= i < |v.value.items| && ReadsUnsafe(v.value.items[i], unsafe)
    else v.None? || ReadsUnsafe(v.value, unsafe)
  }

  function Rank(f: Slot): nat {
    match f
    case Actor => 0
    case Event => 1
    case PayloadHash => 2
    case BeforeSummary => 3
    case AfterSummary => 4
    case Refs => 5
  }

  /** The answer the diagnosis owes: the first tripping field in scan order, None when no field trips. */
  ghost predicate IsFirstTripping(signal: Json, unsafe: string -> bool, r: Option<Slot>) {
    match r
    case None => forall f: Slot :: !Trips(signal, f, unsafe)
    case Some(f) => Trips(signal, f, unsafe) && forall g: Slot :: Rank(g) < Rank(f) ==> !Trips(signal, g, unsafe)
  }

  method FirstUnsafeRef(refs: seq<Json>, oracle: Signal -> bool, ghost unsafe: string -> bool) returns (found: bool)
    requires IsOracle(oracle, unsafe)
    ensures found <==> exists i :: 0 <= i < |refs| && ReadsUnsafe(refs[i], unsafe)
  {
    for i := 0 to |refs|
      invariant forall k :: 0 <= k < i ==> !ReadsUnsafe(refs[k], unsafe)
    {
      if !refs[i].Str? { return true; }
      ProbeIsolates(Refs, refs[i].s, oracle, unsafe);
      if !oracle(Probe(Refs, refs[i].s)) { return true; }
    }
    return false;
  }

  method FirstUnsafeAuditField(signal: Json, oracle: Signal -> bool, ghost unsafe: string -> bool)
    returns (r: Option<Slot>)
    requires IsOracle(oracle, unsafe)
    ensures IsFirstTripping(signal, unsafe, r)
  {
    if !signal.Obj? && !signal.Arr? { return Some(Actor); }
    for i := 0 to |SCALAR_SCAN_ORDER|
      invariant forall g: Slot :: Rank(g) < i ==> !Trips(signal, g, unsafe)
    {
      var f := SCALAR_SCAN_ORDER[i];
      assert Rank(f) == i;
      var value := Field(signal, SlotName(f));
      if value.None? || !value.value.Str? { return Some(f); }
      ProbeIsolates(f, value.value.s, oracle, unsafe);
      if !oracle(Probe(f, value.value.s)) { return Some(f); }
    }
    var refs := Field(signal, "refs");
    if refs.None? || !refs.value.Arr? { return Some(Refs); }
    var found := FirstUnsafeRef(refs.value.items, oracle, unsafe);
    if found { return Some(Refs); }
    return None;
  }

  // ---- the oracle and the diagnosis agree -----------------------------------------------------

  /** `signal` is this well-typed signal, read as JSON. */
  ghost predicate Carries(signal: Json, s: Signal) {
    && StringField(signal, "actor") == Some(s.actor)
    && StringField(signal, "event") == Some(s.event)
    && StringField(signal, "payloadHash") == Some(s.payloadHash)
    && StringField(signal, "beforeSummary") == Some(s.beforeSummary)
    && StringField(signal, "afterSummary") == Some(s.afterSummary)
    && Field(signal, "refs") == Some(Arr(seq(|s.refs|, i requires 0 <= i < |s.refs| => Str(s.refs[i]))))
  }

  function ValueOf(s: Signal, f: Slot): string
    requires f != Refs
  {
    Scanned(s)[Rank(f)]
  }

  lemma ScalarTrips(signal: Json, s: Signal, unsafe: string -> bool, f: Slot)
    requires Carries(signal, s) && f != Refs
    ensures Trips(signal, f, unsafe) <==> unsafe(ValueOf(s, f))
  {}

  lemma RefsTrip(signal: Json, s: Signal, unsafe: string -> bool)
    requires Carries(signal, s)
    ensures Trips(signal, Refs, unsafe) <==> exists i :: 0 <= i < |s.refs| && unsafe(s.refs[i])
  {
    var items := Field(signal, "refs").value.items;
    forall i | 0 <= i < |s.refs| ensures ReadsUnsafe(items[i], unsafe) <==> unsafe(s.refs[i]) {
      assert items[i] == Str(s.refs[i]);
    }
    if i :| 0 <= i < |s.refs| && unsafe(s.refs[i]) { assert ReadsUnsafe(items[i], unsafe); }
  }

  /** For every heuristic, the diagnosis names no field exactly when the scan calls the signal safe. */
  lemma NullExactlyWhenSafe(signal: Json, s: Signal, unsafe: string -> bool, r: Option<Slot>)
    requires Carries(signal, s) && IsFirstTripping(signal, unsafe, r)
    ensures r.None? <==> IsSafe(s, unsafe)
  {
    forall f: Slot | f != Refs ensures Trips(signal, f, unsafe) <==> unsafe(ValueOf(s, f)) {
      ScalarTrips(signal, s, unsafe, f);
    }
    RefsTrip(signal, s, unsafe);
    var scanned := Scanned(s);
    assert forall i :: 0 <= i < |s.refs| ==> scanned[5 + i] == s.refs[i];
    if IsSafe(s, unsafe) {
      forall f: Slot ensures !Trips(signal, f, unsafe) {
        if f != Refs { assert !unsafe(scanned[Rank(f)]); }
      }
    } else {
      var i :| 0 <= i < |scanned| && unsafe(scanned[i]);
      if i < 5 { assert Rank(SCALAR_SCAN_ORDER[i]) == i; assert Trips(signal, SCALAR_SCAN_ORDER[i], unsafe); }
      else { assert scanned[i] == s.refs[i - 5]; }
    }
  }

  predicate HoldsNonText(refs: seq<Json>) { exists i :: 0 <= i < |refs| && !refs[i].Str? }

  /** A signal with a field of the wrong type, or a ref that is no text, is never reported as safe. */
  lemma MalformedIsNamed(signal: Json, unsafe: string -> bool, r: Option<Slot>, f: Slot)
    requires IsFirstTripping(signal, unsafe, r)
    requires
      if f == Refs
      then
        || Field(signal, "refs").None? || !Field(signal, "refs").value.Arr?
        || HoldsNonText(Field(signal, "refs").value.items)
      else StringField(signal, SlotName(f)).None?
    ensures r.Some? && Rank(r.value) <= Rank(f)
  {
    assert Trips(signal, f, unsafe);
  }
}
