/** Token counts of a Codex log event: native counts, which contain each other, are
    split into disjoint parts before they are stored (internal/ingest/otlp/receiver.go). */
module CodexLog {
  import opened Basics
  import opened Text
  import opened Calls

  type Attributes = map<string, string>

  // ---- numbers ----------------------------------------------------------------------

  // strconv.ParseInt(_, 10, 64).
  function ParseInt(s: string): Option<Int64> {
    var signed := s != "" && (s[0] == '-' || s[0] == '+');
    var digits := if signed then s[1..] else s;
    if digits == "" || !AllDigits(digits) then None
    else
      var value: int := if signed && s[0] == '-' then 0 - DigitsValue(digits) else DigitsValue(digits);
      if -MAX_INT64 - 1 <= value <= MAX_INT64 then Some(value) else None
  }

  // requiredNumber: a missing key reads as the empty text, which is no number.
  function RequiredNumber(values: Attributes, key: string): Option<Int64> {
    var value := ParseInt(if key in values then values[key] else "");
    if value.Some? && value.value >= 0 then value else None
  }

  // What is a number: digits, after a sign or without one, that stay within a word.
  predicate Decimal(s: string, value: int) {
    || (s != "" && AllDigits(s) && value == DigitsValue(s))
    || (|s| > 1 && s[0] == '+' && AllDigits(s[1..]) && value == DigitsValue(s[1..]))
    || (|s| > 1 && s[0] == '-' && AllDigits(s[1..]) && value == 0 - DigitsValue(s[1..]))
  }

  lemma ParseIntExactly(s: string, value: Int64)
    ensures ParseInt(s) == Some(value) <==> Decimal(s, value)
  {
    hide DigitsValue;
    if s != "" && AllDigits(s) {
      assert IsDigit(s[0]);
    }
  }

  lemma NumberRoundTrip(values: Attributes, key: string, n: Int64)
    requires key in values && values[key] == Itoa(n)
    ensures RequiredNumber(values, key) == if n >= 0 then Some(n) else None
  {
    hide Digits;
    hide DigitsValue;
    var m: int := n;
    if m >= 0 {
      assert IsDigit(Digits(m)[0]);
      DigitsRoundTrip(m);
    } else {
      assert values[key][1..] == Digits(0 - m);
      DigitsRoundTrip(0 - m);
    }
  }

  // ---- the payload -------------------------------------------------------------------

  datatype Field = Field(name: string, key: string)

  // A decoded payload: the stored components and the reported observations.
  datatype Payload = Payload(
    input: Int64, output: Int64, cachedInput: Int64, cacheWrite: Int64, reasoning: Int64,
    observations: seq<Metric>)

  predicate Native(record: Attributes) {
    "input_token_count" in record || "output_token_count" in record
  }

  // The fields read: native counts, or the older event's own names.
  function Fields(native: bool): seq<Field> {
    if native then
      [Field("input_tokens", "input_token_count"), Field("output_tokens", "output_token_count"),
       Field("cached_input_tokens", "cached_token_count"), Field("cache_write_tokens", "cache_write_token_count"),
       Field("reasoning_tokens", "reasoning_token_count"), Field("total_tokens", "tool_token_count")]
    else
      [Field("input_tokens", "input_tokens"), Field("output_tokens", "output_tokens"),
       Field("cached_input_tokens", "cached_input_tokens"), Field("reasoning_tokens", "reasoning_output_tokens")]
  }

  // usage[name]: zero when the field is absent or no count.
  function Count(record: Attributes, key: string): Int64 {
    var value := RequiredNumber(record, key);
    if value.Some? then value.value else 0
  }

  function Observation(record: Attributes, f: Field): seq<Metric> {
    var value := RequiredNumber(record, f.key);
    if value.Some? then [Metric(f.name, value, "otel", f.key, "reported")] else []
  }

  function Observations(record: Attributes, fields: seq<Field>): seq<Metric> {
    if fields == [] then []
    else Observations(record, fields[..|fields| - 1]) + Observation(record, fields[|fields| - 1])
  }

  // A native field that is present must be a count.
  predicate FieldsReadable(record: Attributes, fields: seq<Field>) {
    forall k :: 0 <= k < |fields| && fields[k].key in record ==> RequiredNumber(record, fields[k].key).Some?
  }

  // The counts of a completed Codex response, or nothing when they are refused.
  function Decompose(record: Attributes): Option<Payload> {
    var native := Native(record);
    var fields := Fields(native);
    var input, output := RequiredNumber(record, fields[0].key), RequiredNumber(record, fields[1].key);
    if input.None? || output.None? then None
    else if native then
      var cached, written := Count(record, "cached_token_count"), Count(record, "cache_write_token_count");
      var reasoning := Count(record, "reasoning_token_count");
      var total := RequiredNumber(record, "tool_token_count");
      if !FieldsReadable(record, fields) then None
      else if cached > input.value || written > input.value - cached || reasoning > output.value
           || input.value > MAX_INT64 - output.value then None
      else if total.Some? && total.value != input.value + output.value then None
      else Some(Payload(input.value - cached - written, output.value - reasoning, cached, written, reasoning,
                        Observations(record, fields)))
    else
      Some(Payload(input.value, output.value, Count(record, "cached_input_tokens"), 0,
                   Count(record, "reasoning_output_tokens"), Observations(record, fields)))
  }

  // The loop over the fields.
  method Observe(record: Attributes, fields: seq<Field>, native: bool) returns (r: Option<seq<Metric>>)
    ensures r.Some? <==> (native ==> FieldsReadable(record, fields))
    ensures r.Some? ==> r.value == Observations(record, fields)
  {
    hide RequiredNumber;
    var observations: seq<Metric> := [];
    for i := 0 to |fields|
      invariant native ==> FieldsReadable(record, fields[..i])
      invariant observations == Observations(record, fields[..i])
    {
      assert fields[..i + 1][..i] == fields[..i];
      var field := fields[i];
      var value := RequiredNumber(record, field.key);
      if native && field.key in record && value.None? {
        return None;
      }
      if value.Some? {
        observations := observations + [Metric(field.name, value, "otel", field.key, "reported")];
      }
    }
    assert fields[..|fields|] == fields;
    r := Some(observations);
  }

  // The call that the importer records from the payload.
  function CallOf(p: Payload, base: CallInput): CallInput {
    base.(input := p.input, output := p.output, reasoning := p.reasoning, cachedInput := p.cachedInput,
          cacheWrite := p.cacheWrite, metrics := p.observations)
  }

  // ---- what the store makes of it ------------------------------------------------------

  lemma {:induction false} ObservationsFrom(record: Attributes, fields: seq<Field>)
    ensures forall m :: m in Observations(record, fields) ==>
              exists f :: f in fields && RequiredNumber(record, f.key).Some?
                          && m == Metric(f.name, RequiredNumber(record, f.key), "otel", f.key, "reported")
  {
    hide RequiredNumber;
    if fields != [] {
      var init, last := fields[..|fields| - 1], fields[|fields| - 1];
      ObservationsFrom(record, init);
      forall m | m in Observations(record, fields)
        ensures exists f :: f in fields && RequiredNumber(record, f.key).Some?
                            && m == Metric(f.name, RequiredNumber(record, f.key), "otel", f.key, "reported")
      {
        if m in Observations(record, init) {
          var f :| f in init && RequiredNumber(record, f.key).Some?
                   && m == Metric(f.name, RequiredNumber(record, f.key), "otel", f.key, "reported");
          assert f in fields;
        } else {
          assert last in fields;
        }
      }
    }
  }

  lemma RequiredIsCount(record: Attributes, key: string)
    ensures RequiredNumber(record, key).Some? ==> RequiredNumber(record, key).value >= 0
  {
  }

  // The parts of a native event are disjoint and make up its input and output.
  lemma PartsAddUp(record: Attributes)
    requires Native(record) && Decompose(record).Some?
    ensures var p := Decompose(record).value;
            var input, output := Count(record, "input_token_count"), Count(record, "output_token_count");
            && p.input >= 0 && p.output >= 0 && p.cachedInput >= 0 && p.cacheWrite >= 0 && p.reasoning >= 0
            && p.input + p.cachedInput + p.cacheWrite == input && p.output + p.reasoning == output
            && 0 <= input + output <= MAX_INT64
  {
    hide ParseInt;
    hide Observations;
    RequiredIsCount(record, "input_token_count");
    RequiredIsCount(record, "output_token_count");
    RequiredIsCount(record, "cached_token_count");
    RequiredIsCount(record, "cache_write_token_count");
    RequiredIsCount(record, "reasoning_token_count");
  }

  lemma ComponentsSum(i: CallInput)
    ensures Sum(Components(i)) == i.input + i.output + i.reasoning + i.cachedInput + i.cacheWrite
  {
    var s := Components(i);
    SumFrom(s, 4);
    SumFrom(s, 3);
    SumFrom(s, 2);
    SumFrom(s, 1);
    SumFrom(s, 0);
    assert s[0..] == s && s[5..] == [];
  }

  lemma SumFrom(s: seq<Int64>, k: nat)
    requires k < |s|
    ensures Sum(s[k..]) == s[k] as int + Sum(s[k + 1..])
  {
    assert s[k..][1..] == s[k + 1..];
  }

  // The total the observations report, if any, is the last total_tokens one.
  lemma {:induction false} ReportedIs(ms: seq<Metric>, default: int, total: int)
    requires forall k :: 0 <= k < |ms| && ms[k].name == "total_tokens" && ms[k].value.Some? ==>
               ms[k].value.value == total
    ensures ReportedTotal(ms, default) == default || ReportedTotal(ms, default) == total
  {
    if ms != [] {
      ReportedIs(ms[..|ms| - 1], default, total);
    }
  }

  lemma ObservedWithin(record: Attributes, m: Metric, total: int)
    requires Native(record) && Decompose(record).Some? && m in Decompose(record).value.observations
    requires total == Count(record, "input_token_count") + Count(record, "output_token_count")
    ensures m.value.Some? && 0 <= m.value.value <= total
    ensures m.name == "total_tokens" ==> m.value.value == total
  {
    hide ParseInt;
    hide Observations;
    var fields := Fields(true);
    ObservationsFrom(record, fields);
    var f :| f in fields && RequiredNumber(record, f.key).Some?
             && m == Metric(f.name, RequiredNumber(record, f.key), "otel", f.key, "reported");
    RequiredIsCount(record, f.key);
    PartsAddUp(record);
  }

  // Main result: the call recorded from a native event is accepted with exactly the
  // input and output tokens the event reported, whatever it was cached, written or
  // reasoned.
  lemma NativeTotalIsInputPlusOutput(record: Attributes, base: CallInput)
    requires Native(record) && Decompose(record).Some?
    ensures var total := Count(record, "input_token_count") + Count(record, "output_token_count");
            CallTotal(CallOf(Decompose(record).value, base)) == Some(total)
  {
    hide Decompose;
    hide Count;
    var p := Decompose(record).value;
    var i := CallOf(p, base);
    var total := Count(record, "input_token_count") + Count(record, "output_token_count");
    PartsAddUp(record);
    ComponentsSum(i);
    forall k | 0 <= k < |i.metrics|
      ensures Observed(i.metrics[k], total)
      ensures i.metrics[k].name == "total_tokens" && i.metrics[k].value.Some? ==> i.metrics[k].value.value == total
    {
      ObservedWithin(record, i.metrics[k], total);
    }
    ReportedIs(i.metrics, total, total);
    assert TotalIs(i, total);
  }

  // ---- what is refused ------------------------------------------------------------------

  // Disjoint parts of one response's tokens.
  datatype Parts = Parts(input: nat, output: nat, cachedInput: nat, cacheWrite: nat, reasoning: nat)

  predicate Reports(record: Attributes, key: string, count: int) {
    RequiredNumber(record, key).Some? && RequiredNumber(record, key).value as int == count
  }

  // An absent count says that there were none.
  predicate Allows(record: Attributes, key: string, count: int) {
    if key in record then Reports(record, key, count) else count == 0
  }

  // The native counts, which contain each other, are those of these parts.
  predicate Explains(record: Attributes, p: Parts) {
    && Reports(record, "input_token_count", p.input + p.cachedInput + p.cacheWrite)
    && Reports(record, "output_token_count", p.output + p.reasoning)
    && Allows(record, "cached_token_count", p.cachedInput)
    && Allows(record, "cache_write_token_count", p.cacheWrite)
    && Allows(record, "reasoning_token_count", p.reasoning)
    && p.input + p.cachedInput + p.cacheWrite + p.output + p.reasoning <= MAX_INT64
    && ("tool_token_count" in record ==>
          Reports(record, "tool_token_count", p.input + p.cachedInput + p.cacheWrite + p.output + p.reasoning))
  }

  lemma NativeFieldsReadable(record: Attributes)
    ensures FieldsReadable(record, Fields(true)) <==>
            && ("input_token_count" in record ==> RequiredNumber(record, "input_token_count").Some?)
            && ("output_token_count" in record ==> RequiredNumber(record, "output_token_count").Some?)
            && ("cached_token_count" in record ==> RequiredNumber(record, "cached_token_count").Some?)
            && ("cache_write_token_count" in record ==> RequiredNumber(record, "cache_write_token_count").Some?)
            && ("reasoning_token_count" in record ==> RequiredNumber(record, "reasoning_token_count").Some?)
            && ("tool_token_count" in record ==> RequiredNumber(record, "tool_token_count").Some?)
  {
    hide RequiredNumber;
    var fields := Fields(true);
    assert fields[0].key == "input_token_count" && fields[1].key == "output_token_count";
    assert fields[2].key == "cached_token_count" && fields[3].key == "cache_write_token_count";
    assert fields[4].key == "reasoning_token_count" && fields[5].key == "tool_token_count";
  }

  lemma MissingIsNoCount(record: Attributes, key: string)
    ensures key !in record ==> RequiredNumber(record, key).None?
    ensures RequiredNumber(record, key).Some? ==> RequiredNumber(record, key).value >= 0
  {
  }

  // Main result: a native event is accepted exactly when some disjoint parts
  // explain all its counts, and it is then split into the only parts that do.
  lemma AcceptedExactlyWhenExplained(record: Attributes)
    requires Native(record)
    ensures Decompose(record).Some? ==>
              var p := Decompose(record).value;
              && p.input >= 0 && p.output >= 0 && p.cachedInput >= 0 && p.cacheWrite >= 0 && p.reasoning >= 0
              && Explains(record, Parts(p.input, p.output, p.cachedInput, p.cacheWrite, p.reasoning))
    ensures forall p :: Explains(record, p) ==>
              Decompose(record).Some? &&
              var q := Decompose(record).value;
              p == Parts(q.input, q.output, q.cachedInput, q.cacheWrite, q.reasoning)
  {
    hide RequiredNumber;
    hide Observations;
    hide FieldsReadable;
    NativeFieldsReadable(record);
    MissingIsNoCount(record, "input_token_count");
    MissingIsNoCount(record, "output_token_count");
    MissingIsNoCount(record, "cached_token_count");
    MissingIsNoCount(record, "cache_write_token_count");
    MissingIsNoCount(record, "reasoning_token_count");
    MissingIsNoCount(record, "tool_token_count");
  }

  // ---- older events, and the observations of both ----------------------------------------

  // Main result on older events: one without native counts is accepted exactly when it
  // has an input and an output count; the two are stored as they are, and an optional
  // count that is absent or unreadable is stored as zero.
  lemma OlderEventExactly(record: Attributes)
    requires "input_token_count" !in record && "output_token_count" !in record
    ensures Decompose(record).Some? <==>
            RequiredNumber(record, "input_tokens").Some? && RequiredNumber(record, "output_tokens").Some?
    ensures Decompose(record).Some? ==>
              var p := Decompose(record).value;
              && Reports(record, "input_tokens", p.input) && Reports(record, "output_tokens", p.output)
              && p.cacheWrite == 0
              && (Reports(record, "cached_input_tokens", p.cachedInput)
                  || (RequiredNumber(record, "cached_input_tokens").None? && p.cachedInput == 0))
              && (Reports(record, "reasoning_output_tokens", p.reasoning)
                  || (RequiredNumber(record, "reasoning_output_tokens").None? && p.reasoning == 0))
  {
    hide RequiredNumber;
    hide Observations;
  }

  lemma {:induction false} ObservationsHave(record: Attributes, fields: seq<Field>, k: nat)
    requires k < |fields|
    ensures forall m :: m in Observation(record, fields[k]) ==> m in Observations(record, fields)
  {
    hide Observation;
    if k < |fields| - 1 {
      ObservationsHave(record, fields[..|fields| - 1], k);
    }
  }

  // An attribute that reports an observation of a name.
  predicate Tells(record: Attributes, m: Metric, key: string, name: string) {
    && m.name == name && m.rawKey == key && m.source == "otel" && m.confidence == "reported"
    && RequiredNumber(record, key).Some? && m.value == RequiredNumber(record, key)
  }

  lemma TellsIs(record: Attributes, m: Metric, f: Field)
    ensures Tells(record, m, f.key, f.name) <==> m in Observation(record, f)
  {
    hide RequiredNumber;
  }

  lemma ObservedByField(record: Attributes, fields: seq<Field>, m: Metric)
    ensures m in Observations(record, fields) <==>
            exists k :: 0 <= k < |fields| && Tells(record, m, fields[k].key, fields[k].name)
  {
    hide RequiredNumber;
    hide Observations;
    ObservationsFrom(record, fields);
    if m in Observations(record, fields) {
      var f :| f in fields && RequiredNumber(record, f.key).Some?
               && m == Metric(f.name, RequiredNumber(record, f.key), "otel", f.key, "reported");
      assert Tells(record, m, f.key, f.name);
    }
    forall k | 0 <= k < |fields| && Tells(record, m, fields[k].key, fields[k].name)
      ensures m in Observations(record, fields)
    {
      TellsIs(record, m, fields[k]);
      ObservationsHave(record, fields, k);
    }
  }

  // Main result on observations: each readable count is stored as one under its own
  // name and attribute, and nothing else is.
  lemma ObservationsExactly(record: Attributes, m: Metric)
    requires Decompose(record).Some?
    ensures m in Decompose(record).value.observations <==>
            if "input_token_count" in record || "output_token_count" in record then
              || Tells(record, m, "input_token_count", "input_tokens")
              || Tells(record, m, "output_token_count", "output_tokens")
              || Tells(record, m, "cached_token_count", "cached_input_tokens")
              || Tells(record, m, "cache_write_token_count", "cache_write_tokens")
              || Tells(record, m, "reasoning_token_count", "reasoning_tokens")
              || Tells(record, m, "tool_token_count", "total_tokens")
            else
              || Tells(record, m, "input_tokens", "input_tokens")
              || Tells(record, m, "output_tokens", "output_tokens")
              || Tells(record, m, "cached_input_tokens", "cached_input_tokens")
              || Tells(record, m, "reasoning_output_tokens", "reasoning_tokens")
  {
    hide RequiredNumber;
    hide Observations;
    hide FieldsReadable;
    hide Count;
    hide Tells;
    var fields := Fields(Native(record));
    ObservedByField(record, fields, m);
    if Native(record) {
      assert fields[0] == Field("input_tokens", "input_token_count");
      assert fields[1] == Field("output_tokens", "output_token_count");
      assert fields[2] == Field("cached_input_tokens", "cached_token_count");
      assert fields[3] == Field("cache_write_tokens", "cache_write_token_count");
      assert fields[4] == Field("reasoning_tokens", "reasoning_token_count");
      assert fields[5] == Field("total_tokens", "tool_token_count");
    } else {
      assert fields[0] == Field("input_tokens", "input_tokens") && fields[1] == Field("output_tokens", "output_tokens");
      assert fields[2] == Field("cached_input_tokens", "cached_input_tokens");
      assert fields[3] == Field("reasoning_tokens", "reasoning_output_tokens");
    }
  }
}
