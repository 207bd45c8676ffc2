// The hybrid router of main.py: the on-device model's output is shaped into a local
// result, and a four-rule priority decision either keeps it or escalates to the cloud.
// The two model calls are outside the model: the local output arrives as a value, and
// the cloud is a recorded link whose reply is fixed and whose calls are counted.

module Router {
  import opened Wrappers
  import Tools

  /** The tools that always need the cloud, as main.py declares them. */
  const CloudRequiredTools: set<string> := {"check_enforceability", "benchmark_clause"}

  /** The default confidence threshold of `generate_hybrid`. */
  const DefaultThreshold: real := 0.72

  /** The provenance labels the router writes into `source`. */
  const HandoffLabel := "cloud (cactus handoff)"
  const LegalLabel := "cloud (legal knowledge required)"
  const LowConfidenceLabel := "cloud (low confidence)"
  const OnDeviceLabel := "on-device"

  /** One function call proposed by a model: a tool name and its arguments. */
  datatype Call = Call(name: string, arguments: map<string, string>)

  /**
   * What the on-device completion produced: text that is not JSON, or a JSON object
   * whose four keys may each be missing.
   */
  datatype RawLocal =
    | Unparseable
    | Parsed(calls: Option<seq<Call>>, timeMs: Option<real>, confidence: Option<real>, handoff: Option<bool>)

  /**
   * The dictionary `generate_cactus` returns; `handoff` is `None` when the key is
   * absent, which is the case after a parse failure.
   */
  datatype LocalResult = LocalResult(calls: seq<Call>, timeMs: real, confidence: real, handoff: Option<bool>)

  /** The dictionary `generate_cloud` returns. */
  datatype CloudResult = CloudResult(calls: seq<Call>, timeMs: real)

  /**
   * The dictionary `generate_hybrid` returns. An escalated result carries the cloud's
   * keys plus `source` and `local_confidence`; a local one keeps its own keys plus `source`.
   */
  datatype Routed = Routed(
    calls: seq<Call>,
    timeMs: real,
    source: string,
    localConfidence: Option<real>,
    confidence: Option<real>,
    handoff: Option<bool>)

  /** The rule that decided a query, in priority order. */
  datatype Rule = Handoff | LegalKnowledge | LowConfidence | OnDevice

  /** `generate_cactus`'s result shaping: a parse failure degrades, missing keys take defaults. */
  function ShapeLocal(raw: RawLocal): LocalResult {
    match raw
    case Unparseable => LocalResult([], 0.0, 0.0, None)
    case Parsed(calls, timeMs, confidence, handoff) =>
      LocalResult(calls.GetOr([]), timeMs.GetOr(0.0), confidence.GetOr(0.0), Some(handoff.GetOr(false)))
  }

  /** Whether any proposed call, not only the first, names a tool that needs the cloud. */
  function AnyCloudTool(calls: seq<Call>): (r: bool)
    ensures r <==> exists i :: 0 <= i < |calls| && calls[i].name in CloudRequiredTools
  {
    if calls == [] then false
    else
      assert forall i :: 0 < i < |calls| ==> calls[i] == calls[1..][i - 1];
      calls[0].name in CloudRequiredTools || AnyCloudTool(calls[1..])
  }

  /** The rule `generate_hybrid` applies to the local result. */
  function Decide(local: LocalResult, threshold: real): Rule {
    if local.handoff == Some(true) then Handoff
    else if AnyCloudTool(local.calls) then LegalKnowledge
    else if local.confidence < threshold then LowConfidence
    else OnDevice
  }

  function Label(rule: Rule): string {
    match rule
    case Handoff => HandoffLabel
    case LegalKnowledge => LegalLabel
    case LowConfidence => LowConfidenceLabel
    case OnDevice => OnDeviceLabel
  }

  /** The cloud's reply, labelled, with the local confidence kept and the local time added. */
  function Escalated(cloud: CloudResult, local: LocalResult, source: string): Routed {
    Routed(cloud.calls, cloud.timeMs + local.timeMs, source, Some(local.confidence), None, None)
  }

  /** The local result, labelled as on-device. */
  function Kept(local: LocalResult): Routed {
    Routed(local.calls, local.timeMs, OnDeviceLabel, None, Some(local.confidence), local.handoff)
  }

  /** What `generate_hybrid` returns when the cloud would answer `cloud`. */
  function Route(local: LocalResult, threshold: real, cloud: CloudResult): Routed {
    var rule := Decide(local, threshold);
    if rule == OnDevice then Kept(local) else Escalated(cloud, local, Label(rule))
  }

  /** The router's own list of cloud tools is the tool catalogue's. */
  lemma CloudToolsAgree()
    ensures CloudRequiredTools == Tools.CloudRequiredTools
  {
  }

  /** A set handoff flag escalates whatever the calls and the confidence. */
  lemma HandoffFirst(local: LocalResult, threshold: real, cloud: CloudResult)
    requires local.handoff == Some(true)
    ensures Route(local, threshold, cloud).source == "cloud (cactus handoff)"
  {
  }

  /**
   * The four rules in priority order: each applies exactly when every earlier one does
   * not and its own condition holds; the device keeps the query exactly when none does.
   */
  lemma DecidePriority(local: LocalResult, threshold: real)
    ensures Decide(local, threshold) == Handoff <==> local.handoff == Some(true)
    ensures Decide(local, threshold) == LegalKnowledge <==>
      local.handoff != Some(true) && exists i :: 0 <= i < |local.calls| && local.calls[i].name in CloudRequiredTools
    ensures Decide(local, threshold) == LowConfidence <==>
      local.handoff != Some(true) && (forall i :: 0 <= i < |local.calls| ==> local.calls[i].name !in CloudRequiredTools)
      && local.confidence < threshold
    ensures Decide(local, threshold) == OnDevice <==>
      local.handoff != Some(true) && (forall i :: 0 <= i < |local.calls| ==> local.calls[i].name !in CloudRequiredTools)
      && threshold <= local.confidence
  {
  }

  /** A cloud tool anywhere among the calls escalates even at full confidence. */
  lemma LegalKnowledgeAtFullConfidence(local: LocalResult, i: nat, cloud: CloudResult)
    requires local.handoff != Some(true) && i < |local.calls| && local.calls[i].name in CloudRequiredTools
    ensures Route(local, DefaultThreshold, cloud).source == "cloud (legal knowledge required)"
  {
  }

  /** A confidence exactly at the default threshold stays on the device. */
  lemma ThresholdIsInclusive(local: LocalResult, cloud: CloudResult)
    requires local.handoff != Some(true) && !AnyCloudTool(local.calls)
    ensures local.confidence == DefaultThreshold ==> Route(local, DefaultThreshold, cloud).source == "on-device"
    ensures local.confidence < DefaultThreshold ==> Route(local, DefaultThreshold, cloud).source == "cloud (low confidence)"
  {
  }

  /** The labels name the rules one-to-one, and only the device's label is "on-device". */
  lemma LabelsDistinct(a: Rule, b: Rule)
    ensures Label(a) == Label(b) <==> a == b
    ensures Label(a) == "on-device" <==> a == OnDevice
  {
  }

  /**
   * On the device path the local result comes back unchanged apart from its label; on
   * every escalation the cloud's calls replace the local ones, the local confidence is
   * kept aside and the two times are added.
   */
  lemma RouteShape(local: LocalResult, threshold: real, cloud: CloudResult)
    ensures var r := Route(local, threshold, cloud);
      r.source == Label(Decide(local, threshold))
      && (Decide(local, threshold) == OnDevice ==>
        r.calls == local.calls && r.timeMs == local.timeMs && r.confidence == Some(local.confidence)
        && r.handoff == local.handoff && r.localConfidence.None?)
      && (Decide(local, threshold) != OnDevice ==>
        r.calls == cloud.calls && r.timeMs == cloud.timeMs + local.timeMs
        && r.localConfidence == Some(local.confidence) && r.confidence.None? && r.handoff.None?)
  {
  }

  /**
   * Output that cannot be parsed has no calls, confidence 0 and no handoff key, so any
   * positive threshold sends it to the cloud by the low-confidence rule.
   */
  lemma UnparseableEscalates(threshold: real, cloud: CloudResult)
    requires threshold > 0.0
    ensures var local := ShapeLocal(Unparseable);
      local.calls == [] && local.confidence == 0.0 && local.handoff.None?
      && Route(local, threshold, cloud).source == "cloud (low confidence)"
      && Route(local, threshold, cloud).calls == cloud.calls
  {
  }

  /** Parsed output takes `[]`, 0, 0 and `False` for missing keys and keeps the ones present. */
  lemma ParsedDefaults(calls: Option<seq<Call>>, timeMs: Option<real>, confidence: Option<real>, handoff: Option<bool>)
    ensures var local := ShapeLocal(Parsed(calls, timeMs, confidence, handoff));
      (calls.None? ==> local.calls == []) && (calls.Some? ==> local.calls == calls.value)
      && (timeMs.None? ==> local.timeMs == 0.0) && (timeMs.Some? ==> local.timeMs == timeMs.value)
      && (confidence.None? ==> local.confidence == 0.0) && (confidence.Some? ==> local.confidence == confidence.value)
      && local.handoff == Some(handoff.Some? && handoff.value)
  {
  }

  /** The remote model: a fixed reply, and a count of the times it was asked. */
  class CloudLink {
    const reply: CloudResult
    var calls: nat

    constructor (reply: CloudResult)
      ensures this.reply == reply && calls == 0
    {
      this.reply := reply;
      calls := 0;
    }

    /** `generate_cloud(messages, tools)`: one more request, answered with `reply`. */
    method Generate() returns (r: CloudResult)
      modifies this
      ensures r == reply && calls == old(calls) + 1
    {
      r := reply;
      calls := calls + 1;
    }
  }

  /**
   * `generate_hybrid(messages, tools, confidence_threshold)` on the local output `raw`:
   * the result is `Route`'s, and the cloud is asked exactly once on an escalation and
   * never on the device path.
   */
  method GenerateHybrid(raw: RawLocal, threshold: real, link: CloudLink) returns (r: Routed)
    modifies link
    ensures r == Route(ShapeLocal(raw), threshold, link.reply)
    ensures link.calls == old(link.calls) + (if Decide(ShapeLocal(raw), threshold) == OnDevice then 0 else 1)
  {
    var local := ShapeLocal(raw);
    if local.handoff == Some(true) {
      var cloud := link.Generate();
      r := Escalated(cloud, local, HandoffLabel);
      return;
    }
    var requiresCloud := AnyCloudTool(local.calls);
    if requiresCloud {
      var cloud := link.Generate();
      r := Escalated(cloud, local, LegalLabel);
      return;
    }
    if local.confidence < threshold {
      var cloud := link.Generate();
      r := Escalated(cloud, local, LowConfidenceLabel);
      return;
    }
    r := Kept(local);
  }
}
