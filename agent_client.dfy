/**
 * The agent's control-message handling: `RMMClient.handle_message`
 * dispatches on the message's `type`, replaces `agent_id` on
 * `auth_success`, and starts or stops screen sharing through `start_vnc`
 * and `stop_vnc`, which guard on and set the `vnc_running` flag. What the
 * handlers do beyond that (run a shell, query the package manager, grab
 * the screen) is outside the model: a handler call is reported as a
 * `Request` carrying the arguments it was given.
 */
module AgentClient {
  import opened Wrappers

  /** A decoded JSON value. Numbers are integers only. */
  datatype Json =
    | JNull
    | JBool(b: bool)
    | JNum(n: int)
    | JStr(s: string)
    | JList(items: seq<Json>)
    | JObj(fields: map<string, Json>)

  /** A server message: `json.loads` of a JSON object. */
  type Message = map<string, Json>

  /** `data.get(key, default)` */
  function Get(data: Message, key: string, default: Json): Json
  {
    if key in data then data[key] else default
  }

  /** `data.get("type")`, `None` when the key is absent. */
  function MessageType(data: Message): Json
  {
    Get(data, "type", JNull)
  }

  /** The message's type is the given string (a non-string `type` equals no string). */
  predicate IsType(data: Message, name: string)
  {
    MessageType(data) == JStr(name)
  }

  // ---------------------------------------------------------------------
  // start_vnc: the quality table

  /** `(resize_percent, interval)` */
  datatype Quality = Quality(resizePercent: int, interval: int)

  const QualityTable: map<string, Quality> := map[
    "low" := Quality(30, 50),
    "medium" := Quality(50, 30),
    "high" := Quality(75, 15)]

  const DefaultQuality: Quality := Quality(50, 30)

  /** JSON lists and objects decode to Python lists and dicts, which cannot be dictionary keys. */
  predicate Hashable(q: Json)
  {
    !q.JList? && !q.JObj?
  }

  /**
   * `quality_settings.get(quality, (50, 30))`: `None` stands for the
   * `TypeError` an unhashable key raises.
   */
  function QualitySettings(q: Json): Option<Quality>
  {
    if !Hashable(q) then None
    else if q.JStr? && q.s in QualityTable then Some(QualityTable[q.s])
    else Some(DefaultQuality)
  }

  /**
   * The table: low (30, 50), medium (50, 30), high (75, 15); any other
   * string or scalar gets (50, 30), the same as medium; a list or object
   * raises.
   */
  lemma QualityTableValues(q: Json)
    ensures QualitySettings(JStr("low")) == Some(Quality(30, 50))
    ensures QualitySettings(JStr("medium")) == Some(Quality(50, 30))
    ensures QualitySettings(JStr("high")) == Some(Quality(75, 15))
    ensures QualitySettings(q).None? <==> q.JList? || q.JObj?
    ensures Hashable(q) && q !in {JStr("low"), JStr("high")} ==> QualitySettings(q) == QualitySettings(JStr("medium"))
  {
  }

  // ---------------------------------------------------------------------
  // The client state and one message

  /** The settings a started capture thread runs with. */
  datatype Capture = Capture(quality: Quality, fps: Json)

  /** What `start_vnc` did. */
  datatype VncStart =
    | AlreadyRunning
    | Started(capture: Capture)
    | SettingsTypeError   // raised after `vnc_running` was set

  /** The handler `handle_message` called, with the arguments it extracted. */
  datatype Request =
    | AuthSuccess
    | ShellExec(data: Message)
    | CheckUpdates
    | InstallUpdates(updateIds: Json)
    | VncStartRequest(quality: Json, fps: Json)
    | VncStopRequest
    | VncInput(input: Json)
    | CommandResult
    | Ignored

  /** The fields of `RMMClient` that `handle_message` changes: `agent_id`, `vnc_running`, and the capture thread. */
  datatype ClientState = ClientState(agentId: Json, vncRunning: bool, capture: Option<Capture>)

  /** The `if`/`elif` chain of `handle_message`, with the defaults of each `data.get`. */
  function Dispatch(data: Message): Request
  {
    if IsType(data, "auth_success") then AuthSuccess
    else if IsType(data, "shell_exec") then ShellExec(data)
    else if IsType(data, "check_updates") then CheckUpdates
    else if IsType(data, "install_updates") then InstallUpdates(Get(data, "updateIds", JList([])))
    else if IsType(data, "vnc_start") then VncStartRequest(Get(data, "quality", JStr("medium")), Get(data, "fps", JNum(15)))
    else if IsType(data, "vnc_stop") then VncStopRequest
    else if IsType(data, "vnc_input") then VncInput(Get(data, "input", JObj(map[])))
    else if IsType(data, "command_result") then CommandResult
    else Ignored
  }

  /** `start_vnc` on a state: nothing when running; otherwise set the flag, then look the quality up and start the thread. */
  function StartStep(st: ClientState, quality: Json, fps: Json): (ClientState, VncStart)
  {
    if st.vncRunning then (st, AlreadyRunning)
    else
      match QualitySettings(quality)
      case None => (st.(vncRunning := true), SettingsTypeError)
      case Some(q) =>
        var c := Capture(q, fps);
        (st.(vncRunning := true, capture := Some(c)), Started(c))
  }

  /** `stop_vnc`: clear the flag; the thread object is kept (it is only joined). */
  function StopStep(st: ClientState): ClientState
  {
    st.(vncRunning := false)
  }

  /** The state after `handle_message(data)`. */
  function Step(st: ClientState, data: Message): ClientState
  {
    match Dispatch(data)
    case AuthSuccess => st.(agentId := Get(data, "agentId", st.agentId))
    case VncStartRequest(quality, fps) => StartStep(st, quality, fps).0
    case VncStopRequest => StopStep(st)
    case _ => st
  }

  /** What `start_vnc` did during `handle_message(data)`; `None` when the message is not a `vnc_start`. */
  function StartOutcome(st: ClientState, data: Message): Option<VncStart>
  {
    match Dispatch(data)
    case VncStartRequest(quality, fps) => Some(StartStep(st, quality, fps).1)
    case _ => None
  }

  /** `handle_message` raises exactly for a `vnc_start` whose quality is a list or an object while sharing is off. */
  lemma RaisesIff(st: ClientState, data: Message)
    ensures StartOutcome(st, data) == Some(SettingsTypeError) <==>
      !st.vncRunning && IsType(data, "vnc_start") && "quality" in data && !Hashable(data["quality"])
    ensures StartOutcome(st, data).Some? <==> IsType(data, "vnc_start")
  {
  }

  /** The requests that carry defaults: `updateIds` defaults to `[]`, quality to `medium`, fps to 15, input to `{}`. */
  lemma DispatchDefaults(data: Message)
    ensures IsType(data, "install_updates") && "updateIds" !in data ==> Dispatch(data) == InstallUpdates(JList([]))
    ensures IsType(data, "vnc_start") && "quality" !in data && "fps" !in data ==>
      Dispatch(data) == VncStartRequest(JStr("medium"), JNum(15))
    ensures IsType(data, "vnc_input") && "input" !in data ==> Dispatch(data) == VncInput(JObj(map[]))
    ensures "type" !in data ==> Dispatch(data) == Ignored
  {
  }

  /** `agent_id` changes only on `auth_success`, and then to the message's `agentId` when it has one. */
  lemma AgentIdRule(st: ClientState, data: Message)
    ensures Step(st, data).agentId ==
      if IsType(data, "auth_success") && "agentId" in data then data["agentId"] else st.agentId
    ensures !IsType(data, "vnc_start") && !IsType(data, "vnc_stop") ==> Step(st, data).vncRunning == st.vncRunning
    ensures Dispatch(data) == Ignored ==> Step(st, data) == st
  {
  }

  /** A running session ignores `vnc_start`; after any `vnc_start` the flag is set, even when the quality raised. */
  lemma StartGuard(st: ClientState, quality: Json, fps: Json)
    ensures st.vncRunning ==> StartStep(st, quality, fps) == (st, AlreadyRunning)
    ensures StartStep(st, quality, fps).0.vncRunning
    ensures StartStep(st, quality, fps).0.agentId == st.agentId
    ensures StartStep(st, quality, fps).1.Started? <==> !st.vncRunning && Hashable(quality)
  {
  }

  /** Starting twice is starting once; stopping twice is stopping once. */
  lemma StartStopIdempotent(st: ClientState, data: Message)
    requires IsType(data, "vnc_start") || IsType(data, "vnc_stop")
    ensures Step(Step(st, data), data) == Step(st, data)
  {
  }

  /**
   * A `vnc_start` whose quality is a list or object leaves `vnc_running`
   * set with no capture thread started: every later `vnc_start` is then
   * ignored until a `vnc_stop`.
   */
  lemma StuckAfterTypeError(st: ClientState, bad: Message, again: Message)
    requires !st.vncRunning && IsType(bad, "vnc_start") && "quality" in bad && !Hashable(bad["quality"])
    requires IsType(again, "vnc_start")
    ensures Step(st, bad).vncRunning && Step(st, bad).capture == st.capture
    ensures Step(Step(st, bad), again) == Step(st, bad)
  {
  }

  // ---------------------------------------------------------------------
  // A sequence of messages

  /** The state after handling `msgs` in order. */
  function Replay(st: ClientState, msgs: seq<Message>): ClientState
  {
    if msgs == [] then st else Step(Replay(st, msgs[..|msgs| - 1]), msgs[|msgs| - 1])
  }

  /** The message is an `auth_success` carrying an `agentId`. */
  predicate SetsAgentId(data: Message)
  {
    IsType(data, "auth_success") && "agentId" in data
  }

  /** The message is a `vnc_start` or a `vnc_stop`. */
  predicate IsVncSwitch(data: Message)
  {
    IsType(data, "vnc_start") || IsType(data, "vnc_stop")
  }

  /** After a run of messages, `agent_id` is the `agentId` of the last `auth_success` that had one. */
  lemma {:induction false} LastAuthSuccessWins(st: ClientState, msgs: seq<Message>, k: nat)
    requires k < |msgs| && SetsAgentId(msgs[k])
    requires forall j :: k < j < |msgs| ==> !SetsAgentId(msgs[j])
    ensures Replay(st, msgs).agentId == msgs[k]["agentId"]
    decreases |msgs|
  {
    var init := msgs[..|msgs| - 1];
    AgentIdRule(Replay(st, init), msgs[|msgs| - 1]);
    if k < |msgs| - 1 {
      assert init[k] == msgs[k];
      forall j | k < j < |init| ensures !SetsAgentId(init[j]) {
        assert init[j] == msgs[j];
      }
      LastAuthSuccessWins(st, init, k);
    }
  }

  /** Without such a message `agent_id` keeps its initial value. */
  lemma {:induction false} AgentIdKeptWithoutAuth(st: ClientState, msgs: seq<Message>)
    requires forall j :: 0 <= j < |msgs| ==> !SetsAgentId(msgs[j])
    ensures Replay(st, msgs).agentId == st.agentId
    decreases |msgs|
  {
    if msgs != [] {
      var init := msgs[..|msgs| - 1];
      AgentIdRule(Replay(st, init), msgs[|msgs| - 1]);
      forall j | 0 <= j < |init| ensures !SetsAgentId(init[j]) {
        assert init[j] == msgs[j];
      }
      AgentIdKeptWithoutAuth(st, init);
    }
  }

  /** `vnc_running` is set exactly when the last `vnc_start`/`vnc_stop` was a start. */
  lemma {:induction false} LastVncSwitchDecides(st: ClientState, msgs: seq<Message>, k: nat)
    requires k < |msgs| && IsVncSwitch(msgs[k])
    requires forall j :: k < j < |msgs| ==> !IsVncSwitch(msgs[j])
    ensures Replay(st, msgs).vncRunning <==> IsType(msgs[k], "vnc_start")
    decreases |msgs|
  {
    var init := msgs[..|msgs| - 1];
    AgentIdRule(Replay(st, init), msgs[|msgs| - 1]);
    if k < |msgs| - 1 {
      assert init[k] == msgs[k];
      forall j | k < j < |init| ensures !IsVncSwitch(init[j]) {
        assert init[j] == msgs[j];
      }
      LastVncSwitchDecides(st, init, k);
    }
  }

  // ---------------------------------------------------------------------
  // RMMClient

  class RmmClient {
    var agentId: Json
    var vncRunning: bool
    var capture: Option<Capture>

    function State(): ClientState
      reads this
    {
      ClientState(agentId, vncRunning, capture)
    }

    /** `__init__`: a fresh identifier (the uuid is an input), sharing off, no thread. */
    constructor (uuid: string)
      ensures State() == ClientState(JStr(uuid), false, None)
    {
      agentId := JStr(uuid);
      vncRunning := false;
      capture := None;
    }

    method StartVnc(quality: Json, fps: Json) returns (outcome: VncStart)
      modifies this
      ensures (State(), outcome) == StartStep(old(State()), quality, fps)
    {
      if vncRunning {
        return AlreadyRunning;
      }
      vncRunning := true;
      if quality.JList? || quality.JObj? {
        return SettingsTypeError;
      }
      var q := if quality.JStr? && quality.s in QualityTable then QualityTable[quality.s] else DefaultQuality;
      capture := Some(Capture(q, fps));
      outcome := Started(Capture(q, fps));
    }

    method StopVnc()
      modifies this
      ensures State() == StopStep(old(State()))
    {
      vncRunning := false;
    }

    /**
     * `handle_message`: the handler called, and what `start_vnc` did when it was called.
     * `vnc == Some(SettingsTypeError)` is the `TypeError` that leaves `handle_message`.
     */
    method HandleMessage(data: Message) returns (request: Request, vnc: Option<VncStart>)
      modifies this
      ensures request == Dispatch(data)
      ensures State() == Step(old(State()), data)
      ensures vnc == StartOutcome(old(State()), data)
    {
      vnc := None;
      var msgType := if "type" in data then data["type"] else JNull;
      if msgType == JStr("auth_success") {
        agentId := if "agentId" in data then data["agentId"] else agentId;
        request := AuthSuccess;
      } else if msgType == JStr("shell_exec") {
        request := ShellExec(data);
      } else if msgType == JStr("check_updates") {
        request := CheckUpdates;
      } else if msgType == JStr("install_updates") {
        request := InstallUpdates(if "updateIds" in data then data["updateIds"] else JList([]));
      } else if msgType == JStr("vnc_start") {
        var quality := if "quality" in data then data["quality"] else JStr("medium");
        var fps := if "fps" in data then data["fps"] else JNum(15);
        var outcome := StartVnc(quality, fps);
        vnc := Some(outcome);
        request := VncStartRequest(quality, fps);
      } else if msgType == JStr("vnc_stop") {
        StopVnc();
        request := VncStopRequest;
      } else if msgType == JStr("vnc_input") {
        request := VncInput(if "input" in data then data["input"] else JObj(map[]));
      } else if msgType == JStr("command_result") {
        request := CommandResult;
      } else {
        request := Ignored;
      }
    }
  }
}
