/** `server.Handler`: which message produces which response, and version negotiation. */
module McpHandler {
  import opened Wrappers
  import opened JsonRpcId

  // A message as the server reads it: its id, its method name (empty for a response), and
  // whether its parameters decode into what the method expects.
  datatype Message = Message(id: Option<Id>, name: string, paramsOk: bool, requestedVersion: string)
  {
    predicate IsRequest() {
      id.Some? && name != ""
    }
  }

  const VERSION_V0: string := "2024-11-05"
  const VERSION_V1: string := "2025-11-25"

  const INVALID_PARAMS: int := -32602
  const METHOD_NOT_FOUND: int := -32601
  const INTERNAL_ERROR: int := -32603

  // What a response carries: an error code, the negotiated version, the empty result, or the
  // result of a provider, of its second-version interface or not.
  datatype Body = Error(code: int) | Initialized(version: string) | Pong | Provided(v1: bool)

  datatype Response = Response(id: Id, body: Body)

  // The providers configured; the three flags say which of them implement the V1 interface.
  datatype Options = Options(
    tools: bool, resources: bool, prompts: bool, completions: bool, tasks: bool, logging: bool,
    toolsV1: bool, resourcesV1: bool, promptsV1: bool, preferV1: bool)

  // Why `Handle` gives no response: the result of a provider does not marshal, or the id of a
  // message without one is dereferenced, which ends the process.
  datatype Failure = MarshalFailed | NilDereference

  // How the provider call made for a message ends.
  datatype ProviderOutcome = Fails | Unmarshalable | Succeeds

  datatype Provider = Tools | Resources | Prompts | Completions | Tasks | Logging

  // What the dispatch makes of a method: for a provider call, whether the parameters must
  // decode and whether there is a V1 form of it.
  datatype Kind = Initialize | Silent | Ping | Call(provider: Provider, needsParams: bool, hasV1: bool) | Unknown

  const NOTIFICATIONS: set<string> := {
    "notifications/initialized",
    "notifications/progress",
    "notifications/cancelled",
    "notifications/task/status",
    "notifications/resources/list_changed",
    "notifications/resources/updated",
    "notifications/prompts/list_changed",
    "notifications/tools/list_changed",
    "notifications/roots/list_changed"
  }

  function Dispatch(name: string): Kind {
    if name in NOTIFICATIONS then Silent
    else if name == "initialize" then Initialize
    else if name == "ping" then Ping
    else if name == "tools/list" then Call(Tools, false, true)
    else if name == "tools/call" then Call(Tools, true, true)
    else if name == "resources/list" then Call(Resources, false, true)
    else if name == "resources/read" then Call(Resources, true, false)
    else if name == "resources/templates/list" then Call(Resources, false, true)
    else if name == "prompts/list" then Call(Prompts, false, true)
    else if name == "prompts/get" then Call(Prompts, true, true)
    else if name == "completion/complete" then Call(Completions, true, false)
    else if name == "logging/setLevel" then Call(Logging, true, false)
    else if name == "tasks/get" then Call(Tasks, true, false)
    else if name == "tasks/result" then Call(Tasks, true, false)
    else if name == "tasks/cancel" then Call(Tasks, true, false)
    else if name == "tasks/list" then Call(Tasks, false, false)
    else Unknown
  }

  predicate Configured(opts: Options, provider: Provider) {
    match provider
    case Tools => opts.tools
    case Resources => opts.resources
    case Prompts => opts.prompts
    case Completions => opts.completions
    case Tasks => opts.tasks
    case Logging => opts.logging
  }

  predicate ImplementsV1(opts: Options, provider: Provider) {
    match provider
    case Tools => opts.tools && opts.toolsV1
    case Resources => opts.resources && opts.resourcesV1
    case Prompts => opts.prompts && opts.promptsV1
    case _ => false
  }

  predicate HasV1Providers(opts: Options) {
    || (opts.tools && opts.toolsV1) || (opts.resources && opts.resourcesV1) || (opts.prompts && opts.promptsV1)
    || opts.completions || opts.tasks || opts.logging
  }

  /** The handlers of request methods dereference the id; this message does not make them fail. */
  predicate Admissible(msg: Message) {
    Dispatch(msg.name) != Silent && Dispatch(msg.name) != Unknown ==> msg.id.Some?
  }

  // ---------- what a message is owed ----------

  /** A request is owed a response unless its method names a notification. */
  predicate OwedResponse(msg: Message) {
    msg.IsRequest() && msg.name !in NOTIFICATIONS
  }

  lemma NotificationsAreSilent(name: string)
    ensures name in NOTIFICATIONS <==> Dispatch(name) == Silent
    ensures name == "initialize" <==> Dispatch(name) == Initialize
    ensures name == "ping" <==> Dispatch(name) == Ping
    ensures name == "" ==> Dispatch(name) == Unknown
  {
  }

  /** What `Handle` may return: nothing when nothing is owed, else a response or an error. */
  ghost predicate Answers(msg: Message, r: Result<Option<Response>, Failure>) {
    && (r == Err(NilDereference) <==> !Admissible(msg))
    && (Admissible(msg) ==>
          if OwedResponse(msg) then r.Err? || (r.value.Some? && r.value.value.id == msg.id.value) else r == Ok(None))
  }

  /** The response to `msg` with the given body; without an id there is none. */
  function Reply(msg: Message, body: Body): Result<Option<Response>, Failure> {
    if msg.id.Some? then Ok(Some(Response(msg.id.value, body))) else Err(NilDereference)
  }

  /** Which provider a method is for. */
  lemma ProviderByName(name: string)
    requires Dispatch(name).Call?
    ensures Dispatch(name).provider == (
              if name in {"tools/list", "tools/call"} then Tools
              else if name in {"resources/list", "resources/read", "resources/templates/list"} then Resources
              else if name in {"prompts/list", "prompts/get"} then Prompts
              else if name in {"tasks/get", "tasks/result", "tasks/cancel", "tasks/list"} then Tasks
              else if name == "logging/setLevel" then Logging
              else Completions)
  {
    hide NOTIFICATIONS;
  }

  /** Only listings do without parameters. */
  lemma ParamsByName(name: string)
    requires Dispatch(name).Call?
    ensures !Dispatch(name).needsParams <==>
            name in {"tools/list", "resources/list", "resources/templates/list", "prompts/list", "tasks/list"}
  {
    hide NOTIFICATIONS;
  }

  /** The methods that have a V1 form are those of tools, resources and prompts, but for reading a resource. */
  lemma V1ByName(name: string)
    requires Dispatch(name).Call?
    ensures Dispatch(name).hasV1 <==>
            Dispatch(name).provider in {Tools, Resources, Prompts} && name != "resources/read"
  {
    hide NOTIFICATIONS;
  }

  const CALLS: set<string> := {
    "tools/list", "tools/call", "resources/list", "resources/read", "resources/templates/list",
    "prompts/list", "prompts/get", "completion/complete", "logging/setLevel",
    "tasks/get", "tasks/result", "tasks/cancel", "tasks/list"
  }

  /** The methods that call a provider. */
  lemma CallsExactly(name: string)
    ensures Dispatch(name).Call? <==> name in CALLS
  {
    if name in CALLS {
      NotANotification(name);
      hide NOTIFICATIONS;
    } else {
      hide NOTIFICATIONS;
    }
  }

  lemma NotANotification(name: string)
    requires name in CALLS
    ensures name !in NOTIFICATIONS
  {
    assert |name| > 0 && name[0] != 'n';
    NotificationInitial(name);
  }

  lemma NotificationInitial(name: string)
    ensures name in NOTIFICATIONS ==> |name| > 0 && name[0] == 'n'
  {
  }

  /** A server negotiates V1 as soon as any provider exists only there or implements its V1 interface. */
  lemma V1ProvidersExactly(opts: Options)
    ensures HasV1Providers(opts) <==>
            exists p: Provider ::
              Configured(opts, p) && (p == Completions || p == Tasks || p == Logging || ImplementsV1(opts, p))
  {
    assert Configured(opts, Completions) == opts.completions && Configured(opts, Tasks) == opts.tasks;
    assert Configured(opts, Logging) == opts.logging;
    assert ImplementsV1(opts, Tools) == (opts.tools && opts.toolsV1) && Configured(opts, Tools) == opts.tools;
    assert ImplementsV1(opts, Resources) == (opts.resources && opts.resourcesV1);
    assert ImplementsV1(opts, Prompts) == (opts.prompts && opts.promptsV1);
  }

  class Handler {
    const opts: Options
    var initialized: bool
    var negotiatedVersion: string

    constructor (opts: Options)
      ensures this.opts == opts && Valid() && !initialized
    {
      this.opts := opts;
      initialized, negotiatedVersion := false, "";
    }

    /** V1 is negotiated only with a server that has V1 providers. */
    predicate Valid()
      reads this
    {
      && (negotiatedVersion == VERSION_V1 ==> HasV1Providers(opts))
      && (initialized <==> negotiatedVersion == VERSION_V0 || negotiatedVersion == VERSION_V1)
      && (!initialized ==> negotiatedVersion == "")
    }

    /** The provider is called: there is one, and the parameters decode if they must. */
    predicate Reaches(msg: Message, kind: Kind)
      requires kind.Call?
    {
      Configured(opts, kind.provider) && (kind.needsParams ==> msg.paramsOk)
    }

    method Handle(msg: Message, outcome: ProviderOutcome) returns (r: Result<Option<Response>, Failure>)
      requires Valid()
      modifies this
      ensures Valid()
      ensures Answers(msg, r)
      ensures old(initialized) ==> initialized
      ensures msg.name != "initialize" || !msg.paramsOk ==> unchanged(this)
      ensures msg.name == "initialize" ==>
                if msg.paramsOk then
                  && initialized
                  && (negotiatedVersion == VERSION_V1 <==> msg.requestedVersion == VERSION_V1 && HasV1Providers(opts))
                  && r == Reply(msg, Initialized(negotiatedVersion))
                else r == Reply(msg, Error(INVALID_PARAMS))
      ensures msg.name == "ping" ==> r == Reply(msg, Pong)
      ensures OwedResponse(msg) && Dispatch(msg.name) == Unknown ==> r == Reply(msg, Error(METHOD_NOT_FOUND))
      ensures var kind := Dispatch(msg.name);
              kind.Call? && msg.id.Some? ==>
                && (r == Reply(msg, Error(INVALID_PARAMS)) <==> Configured(opts, kind.provider) && !Reaches(msg, kind))
                && (r == Reply(msg, Error(INTERNAL_ERROR)) <==>
                      !Configured(opts, kind.provider) || (Reaches(msg, kind) && outcome == Fails))
                && (r == Err(MarshalFailed) <==> Reaches(msg, kind) && outcome == Unmarshalable)
                && (r == Reply(msg, Provided(true)) <==>
                      && Reaches(msg, kind) && outcome == Succeeds
                      && kind.hasV1 && ImplementsV1(opts, kind.provider)
                      && (negotiatedVersion == VERSION_V1 || opts.preferV1))
                && (r == Reply(msg, Provided(UsesV1(kind))) <==> Reaches(msg, kind) && outcome == Succeeds)
    {
      NotificationsAreSilent(msg.name);
      hide NOTIFICATIONS, Dispatch;
      match Dispatch(msg.name) {
        case Initialize => r := HandleInitialize(msg);
        case Silent => r := Ok(None);
        case Ping => r := Reply(msg, Pong);
        case Call(provider, needsParams, hasV1) => r := CallResult(msg, Dispatch(msg.name), outcome);
        case Unknown =>
          if msg.IsRequest() {
            r := Reply(msg, Error(METHOD_NOT_FOUND));
          } else {
            r := Ok(None);
          }
      }
    }

    function CallResult(msg: Message, kind: Kind, outcome: ProviderOutcome): Result<Option<Response>, Failure>
      requires kind.Call?
      reads this
    {
      if !Configured(opts, kind.provider) then Reply(msg, Error(INTERNAL_ERROR))
      else if kind.needsParams && !msg.paramsOk then Reply(msg, Error(INVALID_PARAMS))
      else
        match outcome
        case Fails => Reply(msg, Error(INTERNAL_ERROR))
        case Unmarshalable => if msg.id.Some? then Err(MarshalFailed) else Err(NilDereference)
        case Succeeds => Reply(msg, Provided(UsesV1(kind)))
    }

    /** The second-version interface is used when it was negotiated or is preferred, and exists. */
    predicate UsesV1(kind: Kind)
      requires kind.Call?
      reads this
    {
      kind.hasV1 && (negotiatedVersion == VERSION_V1 || opts.preferV1) && ImplementsV1(opts, kind.provider)
    }

    method HandleInitialize(msg: Message) returns (r: Result<Option<Response>, Failure>)
      requires Valid()
      modifies this
      ensures Valid() && (old(initialized) ==> initialized)
      ensures !msg.paramsOk ==> unchanged(this) && r == Reply(msg, Error(INVALID_PARAMS))
      ensures msg.paramsOk ==>
                && initialized
                && (negotiatedVersion == VERSION_V1 <==> msg.requestedVersion == VERSION_V1 && HasV1Providers(opts))
                && r == Reply(msg, Initialized(negotiatedVersion))
    {
      if !msg.paramsOk {
        return Reply(msg, Error(INVALID_PARAMS));
      }
      initialized := true;
      if msg.requestedVersion == VERSION_V1 && HasV1Providers(opts) {
        negotiatedVersion := VERSION_V1;
        return Reply(msg, Initialized(VERSION_V1));
      }
      negotiatedVersion := VERSION_V0;
      return Reply(msg, Initialized(VERSION_V0));
    }
  }
}
