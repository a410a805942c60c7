/**
 The JSON-RPC envelopes: client commands with an optional execution context, server
 messages with an optional sequence number. Both extras travel inside the parameters.
 */
module Envelope {
  import opened Wrappers
  import Protocol

  /** Keys of JSON objects, told apart by their spelling alone. */
  datatype FieldName =
    | ApiKeyField
    | BaseUrlField
    | BeforeTurnIdField
    | ContextField
    | ConversationIdField
    | CursorField
    | DecisionField
    | EnabledField
    | KeyField
    | LimitField
    | ModelField
    | NodeIdField
    | PlatformField
    | RequestField
    | RequestIdField
    | SessionIdField
    | TitleField
    | TypeField
    | ValueField
    | EventSeqField
    | OtherField(text: string)

  datatype Value =
    | Null
    | Bool(flag: bool)
    | Num(number: nat)
    | Str(text: string)
    | Arr(items: seq<Value>)
    | Obj(fields: map<FieldName, Value>)

  /** How values of a type are written as JSON and read back. */
  datatype Codec<!T(!new)> = Codec(encode: T -> Value, decode: Value -> Option<T>) {

    ghost predicate Lawful() {
      forall x :: decode(encode(x)) == Some(x)
    }

    /** Written as an object without the given field. */
    ghost predicate Avoids(field: FieldName) {
      forall x :: encode(x).Obj? && field !in encode(x).fields
    }
  }

  datatype Error = UnsupportedMethod | ExpectedObject | MissingField | BadValue

  // ------------------------------------------------------------------------- fields

  function GetField(params: Value, field: FieldName): Result<Value, Error> {
    if !params.Obj? then Err(ExpectedObject)
    else if field !in params.fields then Err(MissingField)
    else Ok(params.fields[field])
  }

  function StringField(params: Value, field: FieldName): Result<string, Error> {
    match GetField(params, field)
    case Err(e) => Err(e)
    case Ok(Str(text)) => Ok(text)
    case Ok(_) => Err(BadValue)
  }

  function BoolField(params: Value, field: FieldName): Result<bool, Error> {
    match GetField(params, field)
    case Err(e) => Err(e)
    case Ok(Bool(flag)) => Ok(flag)
    case Ok(_) => Err(BadValue)
  }

  /** A missing field and null are the same. */
  function OptionalField(params: Value, field: FieldName): Result<Option<Value>, Error> {
    if !params.Obj? then Err(ExpectedObject)
    else if field !in params.fields || params.fields[field].Null? then Ok(None)
    else Ok(Some(params.fields[field]))
  }

  function OptionalString(params: Value, field: FieldName): Result<Option<string>, Error> {
    match OptionalField(params, field)
    case Err(e) => Err(e)
    case Ok(None) => Ok(None)
    case Ok(Some(Str(text))) => Ok(Some(text))
    case Ok(Some(_)) => Err(BadValue)
  }

  function NumberOr(params: Value, field: FieldName, default: nat): Result<nat, Error> {
    match OptionalField(params, field)
    case Err(e) => Err(e)
    case Ok(None) => Ok(default)
    case Ok(Some(Num(number))) => Ok(number)
    case Ok(Some(_)) => Err(BadValue)
  }

  function Decoded<T(!new)>(value: Value, codec: Codec<T>): Result<T, Error> {
    match codec.decode(value)
    case None => Err(BadValue)
    case Some(x) => Ok(x)
  }

  function DecodedField<T(!new)>(params: Value, field: FieldName, codec: Codec<T>): Result<T, Error> {
    match GetField(params, field)
    case Err(e) => Err(e)
    case Ok(value) => Decoded(value, codec)
  }

  function OptionalText(text: Option<string>): Value {
    if text.Some? then Str(text.value) else Null
  }

  function Map<A, B>(r: Result<A, Error>, f: A -> B): Result<B, Error> {
    if r.Ok? then Ok(f(r.value)) else Err(r.error)
  }

  function Map2<A, B, C>(a: Result<A, Error>, b: Result<B, Error>, f: (A, B) -> C): Result<C, Error> {
    if a.Err? then Err(a.error) else Map(b, y => f(a.value, y))
  }

  function Map3<A, B, C, D>(a: Result<A, Error>, b: Result<B, Error>, c: Result<C, Error>, f: (A, B, C) -> D): Result<D, Error> {
    if a.Err? then Err(a.error) else Map2(b, c, (y, z) => f(a.value, y, z))
  }

  // ----------------------------------------------------------------------- commands

  datatype Command<Turn, Id, Decision> =
    | SubmitTurn(input: Turn)
    | ResolveServerRequest(conversationId: string, requestId: Id, decision: Decision)
    | InterruptTurn(conversationId: string)
    | CompactConversation(conversationId: string)
    | ResetConversation(conversationId: string)
    | RequestConversationView(conversationId: string)
    | RequestConversationHistory(conversationId: string)
    | RequestConversationHistoryPage(conversationId: string, beforeTurnId: Option<string>, limit: nat)
    | ListConversationsPage(cursor: Option<string>, limit: nat)
    | ListSkills
    | ListOnlineNodes
    | ListPlatforms
    | GetNodeStatus
    | StopNode
    | SetConversationTitle(conversationId: string, title: string)
    | CreateConversation(conversationId: string)
    | SwitchConversation(conversationId: string)
    | SelectTargetNode(nodeId: string)
    | GetPlatformStatus(platform: string)
    | GetPlatformConfig(platform: string)
    | SetPlatformEnabled(platform: string, enabled: bool)
    | SetPlatformConfigValue(platform: string, key: string, value: string)
    | ClearPlatformConfigValue(platform: string, key: string)
    | ReloadLlmConfig(apiKey: string, baseUrl: string, model: string)
    | StartWeixinLogin
    | CheckWeixinLogin(sessionId: string)
    | ArchiveConversation(conversationId: string)
    | DeleteConversation(conversationId: string)
    | SubscribeConversation(conversationId: string)
    | UnsubscribeConversation(conversationId: string)
    | Exit

  datatype Codecs<!Turn(!new), !Id(!new), !Decision(!new), !Context(!new)> =
    Codecs(turn: Codec<Turn>, id: Codec<Id>, decision: Codec<Decision>, context: Codec<Context>) {

    ghost predicate Lawful() {
      turn.Lawful() && turn.Avoids(ContextField) && id.Lawful() && decision.Lawful() && context.Lawful()
    }
  }

  /** Method names on the wire, told apart by their spelling alone. */
  datatype MethodName =
    | TurnStart
    | ServerRequestResolve
    | TurnInterrupt
    | ConversationCompact
    | ConversationReset
    | ConversationView
    | ConversationHistory
    | ConversationHistoryPage
    | ConversationListPage
    | SkillsList
    | HubNodeList
    | PlatformList
    | NodeStatus
    | NodeStop
    | ConversationTitleSet
    | ConversationCreate
    | ConversationSwitch
    | HubNodeSelect
    | PlatformStatus
    | PlatformConfig
    | PlatformSetEnabled
    | PlatformConfigSet
    | PlatformConfigClear
    | LlmConfigReload
    | WeixinLoginStart
    | WeixinLoginCheck
    | ConversationArchive
    | ConversationDelete
    | ConversationSubscribe
    | ConversationUnsubscribe
    | AppExit
    | OtherMethod(text: string)

  function Method<T, I, D>(command: Command<T, I, D>): MethodName {
    match command
    case SubmitTurn(_) => TurnStart
    case ResolveServerRequest(_, _, _) => ServerRequestResolve
    case InterruptTurn(_) => TurnInterrupt
    case CompactConversation(_) => ConversationCompact
    case ResetConversation(_) => ConversationReset
    case RequestConversationView(_) => ConversationView
    case RequestConversationHistory(_) => ConversationHistory
    case RequestConversationHistoryPage(_, _, _) => ConversationHistoryPage
    case ListConversationsPage(_, _) => ConversationListPage
    case ListSkills => SkillsList
    case ListOnlineNodes => HubNodeList
    case ListPlatforms => PlatformList
    case GetNodeStatus => NodeStatus
    case StopNode => NodeStop
    case SetConversationTitle(_, _) => ConversationTitleSet
    case CreateConversation(_) => ConversationCreate
    case SwitchConversation(_) => ConversationSwitch
    case SelectTargetNode(_) => HubNodeSelect
    case GetPlatformStatus(_) => PlatformStatus
    case GetPlatformConfig(_) => PlatformConfig
    case SetPlatformEnabled(_, _) => PlatformSetEnabled
    case SetPlatformConfigValue(_, _, _) => PlatformConfigSet
    case ClearPlatformConfigValue(_, _) => PlatformConfigClear
    case ReloadLlmConfig(_, _, _) => LlmConfigReload
    case StartWeixinLogin => WeixinLoginStart
    case CheckWeixinLogin(_) => WeixinLoginCheck
    case ArchiveConversation(_) => ConversationArchive
    case DeleteConversation(_) => ConversationDelete
    case SubscribeConversation(_) => ConversationSubscribe
    case UnsubscribeConversation(_) => ConversationUnsubscribe
    case Exit => AppExit
  }

  function Params<T(!new), I(!new), D(!new), C(!new)>(command: Command<T, I, D>, codecs: Codecs<T, I, D, C>): Value {
    match command
    case SubmitTurn(input) => codecs.turn.encode(input)
    case ResolveServerRequest(conversation, request, decision) =>
      Obj(map[TypeField := Str("resolve_server_request"), ConversationIdField := Str(conversation),
              RequestIdField := codecs.id.encode(request), DecisionField := codecs.decision.encode(decision)])
    case InterruptTurn(conversation) => Conversation(conversation)
    case CompactConversation(conversation) => Conversation(conversation)
    case ResetConversation(conversation) => Conversation(conversation)
    case RequestConversationView(conversation) => Conversation(conversation)
    case RequestConversationHistory(conversation) => Conversation(conversation)
    case RequestConversationHistoryPage(conversation, before, limit) =>
      Obj(map[ConversationIdField := Str(conversation), BeforeTurnIdField := OptionalText(before), LimitField := Num(limit)])
    case ListConversationsPage(cursor, limit) => Obj(map[CursorField := OptionalText(cursor), LimitField := Num(limit)])
    case ListSkills | ListOnlineNodes | ListPlatforms | GetNodeStatus | StopNode | StartWeixinLogin | Exit => Null
    case SetConversationTitle(conversation, title) => Obj(map[ConversationIdField := Str(conversation), TitleField := Str(title)])
    case CreateConversation(conversation) => Conversation(conversation)
    case SwitchConversation(conversation) => Conversation(conversation)
    case SelectTargetNode(node) => Obj(map[NodeIdField := Str(node)])
    case GetPlatformStatus(platform) => Obj(map[PlatformField := Str(platform)])
    case GetPlatformConfig(platform) => Obj(map[PlatformField := Str(platform)])
    case SetPlatformEnabled(platform, enabled) => Obj(map[PlatformField := Str(platform), EnabledField := Bool(enabled)])
    case SetPlatformConfigValue(platform, key, value) =>
      Obj(map[PlatformField := Str(platform), KeyField := Str(key), ValueField := Str(value)])
    case ClearPlatformConfigValue(platform, key) => Obj(map[PlatformField := Str(platform), KeyField := Str(key)])
    case ReloadLlmConfig(key, url, model) => Obj(map[ApiKeyField := Str(key), BaseUrlField := Str(url), ModelField := Str(model)])
    case CheckWeixinLogin(session) => Obj(map[SessionIdField := Str(session)])
    case ArchiveConversation(conversation) => Conversation(conversation)
    case DeleteConversation(conversation) => Conversation(conversation)
    case SubscribeConversation(conversation) => Conversation(conversation)
    case UnsubscribeConversation(conversation) => Conversation(conversation)
  }

  function Conversation(id: string): Value {
    Obj(map[ConversationIdField := Str(id)])
  }

  /** `parse_command`. */
  function ParseCommand<T(!new), I(!new), D(!new), C(!new)>(name: MethodName, p: Value, codecs: Codecs<T, I, D, C>)
    : Result<Command<T, I, D>, Error>
  {
    var conversation := StringField(p, ConversationIdField);
    var platform := StringField(p, PlatformField);
    match name
    case TurnStart => Map(Decoded(p, codecs.turn), x => SubmitTurn(x))
    case TurnInterrupt => Map(conversation, x => InterruptTurn(x))
    case ConversationCompact => Map(conversation, x => CompactConversation(x))
    case ConversationReset => Map(conversation, x => ResetConversation(x))
    case ConversationView => Map(conversation, x => RequestConversationView(x))
    case ConversationHistory => Map(conversation, x => RequestConversationHistory(x))
    case ConversationHistoryPage =>
      Map3(conversation, OptionalString(p, BeforeTurnIdField), NumberOr(p, LimitField, 30), (x, y, z) => RequestConversationHistoryPage(x, y, z))
    case ConversationListPage =>
      Map2(OptionalString(p, CursorField), NumberOr(p, LimitField, 25), (x, y) => ListConversationsPage(x, y))
    case SkillsList => Ok(ListSkills)
    case HubNodeList => Ok(ListOnlineNodes)
    case PlatformList => Ok(ListPlatforms)
    case NodeStatus => Ok(GetNodeStatus)
    case NodeStop => Ok(StopNode)
    case ConversationCreate => Map(conversation, x => CreateConversation(x))
    case ConversationTitleSet => Map2(conversation, StringField(p, TitleField), (x, y) => SetConversationTitle(x, y))
    case ConversationSwitch => Map(conversation, x => SwitchConversation(x))
    case HubNodeSelect => Map(StringField(p, NodeIdField), x => SelectTargetNode(x))
    case PlatformStatus => Map(platform, x => GetPlatformStatus(x))
    case PlatformConfig => Map(platform, x => GetPlatformConfig(x))
    case PlatformSetEnabled => Map2(platform, BoolField(p, EnabledField), (x, y) => SetPlatformEnabled(x, y))
    case PlatformConfigSet =>
      Map3(platform, StringField(p, KeyField), StringField(p, ValueField), (x, y, z) => SetPlatformConfigValue(x, y, z))
    case PlatformConfigClear => Map2(platform, StringField(p, KeyField), (x, y) => ClearPlatformConfigValue(x, y))
    case LlmConfigReload =>
      Map3(StringField(p, ApiKeyField), StringField(p, BaseUrlField), StringField(p, ModelField), (x, y, z) => ReloadLlmConfig(x, y, z))
    case WeixinLoginStart => Ok(StartWeixinLogin)
    case WeixinLoginCheck => Map(StringField(p, SessionIdField), x => CheckWeixinLogin(x))
    case ConversationArchive => Map(conversation, x => ArchiveConversation(x))
    case ConversationDelete => Map(conversation, x => DeleteConversation(x))
    case ConversationSubscribe => Map(conversation, x => SubscribeConversation(x))
    case ConversationUnsubscribe => Map(conversation, x => UnsubscribeConversation(x))
    case ServerRequestResolve =>
      Map3(conversation, DecodedField(p, RequestIdField, codecs.id), DecodedField(p, DecisionField, codecs.decision),
        (x, y, z) => ResolveServerRequest(x, y, z))
    case AppExit => Ok(Exit)
    case OtherMethod(_) => Err(UnsupportedMethod)
  }

  /** Commands about one conversation, and those without parameters. */
  predicate IsSimple<T, I, D>(command: Command<T, I, D>) {
    !( command.SubmitTurn? || command.ResolveServerRequest? || command.RequestConversationHistoryPage? || command.ListConversationsPage?
       || command.SetConversationTitle? || command.SelectTargetNode? || command.GetPlatformStatus? || command.GetPlatformConfig?
       || command.SetPlatformEnabled? || command.SetPlatformConfigValue? || command.ClearPlatformConfigValue?
       || command.ReloadLlmConfig? || command.CheckWeixinLogin?)
  }

  lemma ParsesSimple<T(!new), I(!new), D(!new), C(!new)>(command: Command<T, I, D>, codecs: Codecs<T, I, D, C>, p: Value)
    requires IsSimple(command)
    requires p == Params(command, codecs) || (Params(command, codecs).Null? && p == Obj(map[]))
    ensures ParseCommand(Method(command), p, codecs) == Ok(command)
  {
    hide OptionalString, NumberOr, BoolField, DecodedField, Decoded, Map2, Map3;
  }

  lemma ParsesPlatform<T(!new), I(!new), D(!new), C(!new)>(command: Command<T, I, D>, codecs: Codecs<T, I, D, C>, p: Value)
    requires codecs.Lawful() && p == Params(command, codecs)
    requires command.GetPlatformStatus? || command.GetPlatformConfig? || command.SetPlatformEnabled?
             || command.SetPlatformConfigValue? || command.ClearPlatformConfigValue?
    ensures ParseCommand(Method(command), p, codecs) == Ok(command)
  {
  }

  lemma ParsesPages<T(!new), I(!new), D(!new), C(!new)>(command: Command<T, I, D>, codecs: Codecs<T, I, D, C>, p: Value)
    requires codecs.Lawful() && p == Params(command, codecs)
    requires command.RequestConversationHistoryPage? || command.ListConversationsPage? || command.SetConversationTitle?
    ensures ParseCommand(Method(command), p, codecs) == Ok(command)
  {
  }

  lemma ParsesDecoded<T(!new), I(!new), D(!new), C(!new)>(command: Command<T, I, D>, codecs: Codecs<T, I, D, C>, p: Value)
    requires codecs.Lawful() && p == Params(command, codecs)
    requires command.SubmitTurn? || command.ResolveServerRequest?
    ensures ParseCommand(Method(command), p, codecs) == Ok(command)
  {
  }

  lemma ParsesSettings<T(!new), I(!new), D(!new), C(!new)>(command: Command<T, I, D>, codecs: Codecs<T, I, D, C>, p: Value)
    requires codecs.Lawful() && p == Params(command, codecs)
    requires command.SelectTargetNode? || command.ReloadLlmConfig? || command.CheckWeixinLogin?
    ensures ParseCommand(Method(command), p, codecs) == Ok(command)
  {
  }

  lemma ParsesOthers<T(!new), I(!new), D(!new), C(!new)>(command: Command<T, I, D>, codecs: Codecs<T, I, D, C>, p: Value)
    requires codecs.Lawful() && !IsSimple(command) && p == Params(command, codecs)
    ensures ParseCommand(Method(command), p, codecs) == Ok(command)
  {
    hide ParseCommand, Method, Params;
    match command
    case SubmitTurn(_) | ResolveServerRequest(_, _, _) => ParsesDecoded(command, codecs, p);
    case RequestConversationHistoryPage(_, _, _) | ListConversationsPage(_, _) | SetConversationTitle(_, _) => ParsesPages(command, codecs, p);
    case SelectTargetNode(_) | ReloadLlmConfig(_, _, _) | CheckWeixinLogin(_) => ParsesSettings(command, codecs, p);
    case _ => ParsesPlatform(command, codecs, p);
  }

  /** Every command is read back from the method and parameters it is written as; the
      ones without parameters accept an empty object for null. */
  lemma ParsesWhatWasWritten<T(!new), I(!new), D(!new), C(!new)>(command: Command<T, I, D>, codecs: Codecs<T, I, D, C>, p: Value)
    requires codecs.Lawful()
    requires p == Params(command, codecs) || (Params(command, codecs).Null? && p == Obj(map[]))
    ensures ParseCommand(Method(command), p, codecs) == Ok(command)
  {
    hide ParseCommand, Method, Params, IsSimple;
    if IsSimple(command) {
      ParsesSimple(command, codecs, p);
    } else {
      if Params(command, codecs).Null? {
        SimpleIfNull(command, codecs);
      }
      ParsesOthers(command, codecs, p);
    }
  }

  /** A command is only ever read from the method it is written as; a method without a
      name of its own is refused. */
  lemma ParsedMethod<T(!new), I(!new), D(!new), C(!new)>(name: MethodName, p: Value, codecs: Codecs<T, I, D, C>)
    ensures ParseCommand(name, p, codecs).Ok? ==> Method(ParseCommand(name, p, codecs).value) == name
    ensures name.OtherMethod? ==> ParseCommand(name, p, codecs) == Err(UnsupportedMethod)
  {
    hide ParseCommand, Method;
    if NamesConversation(name) {
      ParsedConversation(name, p, codecs);
    } else if NamesPlatform(name) {
      ParsedPlatform(name, p, codecs);
    } else {
      ParsedOther(name, p, codecs);
    }
  }

  /** The methods of commands that only name a conversation. */
  predicate NamesConversation(name: MethodName) {
    || name.TurnInterrupt? || name.ConversationCompact? || name.ConversationReset? || name.ConversationView? || name.ConversationHistory?
    || name.ConversationCreate? || name.ConversationSwitch? || name.ConversationArchive? || name.ConversationDelete?
    || name.ConversationSubscribe? || name.ConversationUnsubscribe?
  }

  lemma ParsedConversation<T(!new), I(!new), D(!new), C(!new)>(name: MethodName, p: Value, codecs: Codecs<T, I, D, C>)
    requires NamesConversation(name)
    ensures ParseCommand(name, p, codecs).Ok? ==> Method(ParseCommand(name, p, codecs).value) == name
  {
    hide StringField, OptionalString, NumberOr, BoolField, DecodedField, Decoded, Map2, Map3;
  }

  predicate NamesPlatform(name: MethodName) {
    name.PlatformStatus? || name.PlatformConfig? || name.PlatformSetEnabled? || name.PlatformConfigSet? || name.PlatformConfigClear?
  }

  lemma ParsedPlatform<T(!new), I(!new), D(!new), C(!new)>(name: MethodName, p: Value, codecs: Codecs<T, I, D, C>)
    requires NamesPlatform(name)
    ensures ParseCommand(name, p, codecs).Ok? ==> Method(ParseCommand(name, p, codecs).value) == name
  {
    hide StringField, OptionalString, NumberOr, BoolField, DecodedField, Decoded;
  }

  lemma ParsedOther<T(!new), I(!new), D(!new), C(!new)>(name: MethodName, p: Value, codecs: Codecs<T, I, D, C>)
    requires !NamesConversation(name) && !NamesPlatform(name)
    ensures ParseCommand(name, p, codecs).Ok? ==> Method(ParseCommand(name, p, codecs).value) == name
    ensures name.OtherMethod? ==> ParseCommand(name, p, codecs) == Err(UnsupportedMethod)
  {
    hide StringField, OptionalString, NumberOr, BoolField, DecodedField, Decoded;
  }

  /** A page request without a limit, or with null for one, asks for 30 turns or for 25
      conversations; without a cursor it asks for the newest. */
  lemma DefaultLimits<T(!new), I(!new), D(!new), C(!new)>(conversation: string, codecs: Codecs<T, I, D, C>)
    ensures ParseCommand(ConversationHistoryPage, Obj(map[ConversationIdField := Str(conversation)]), codecs)
         == Ok(RequestConversationHistoryPage(conversation, None, 30))
    ensures ParseCommand(ConversationHistoryPage, Obj(map[ConversationIdField := Str(conversation), LimitField := Null]), codecs)
         == Ok(RequestConversationHistoryPage(conversation, None, 30))
    ensures ParseCommand(ConversationListPage, Obj(map[]), codecs) == Ok(ListConversationsPage(None, 25))
    ensures ParseCommand(ConversationListPage, Obj(map[LimitField := Null]), codecs) == Ok(ListConversationsPage(None, 25))
  {
  }

  /** A command about one conversation is read exactly from an object that names the
      conversation in a string; what else the object holds does not matter. */
  lemma ReadsConversation<T(!new), I(!new), D(!new), C(!new)>(name: MethodName, p: Value, codecs: Codecs<T, I, D, C>)
    requires NamesConversation(name)
    ensures var r := ParseCommand(name, p, codecs);
            && (r.Ok? <==> p.Obj? && ConversationIdField in p.fields && p.fields[ConversationIdField].Str?)
            && (r.Ok? ==> Params(r.value, codecs) == Obj(map[ConversationIdField := p.fields[ConversationIdField]]))
            && (!p.Obj? ==> r == Err(ExpectedObject))
            && (p.Obj? && ConversationIdField !in p.fields ==> r == Err(MissingField))
            && (p.Obj? && ConversationIdField in p.fields && !p.fields[ConversationIdField].Str? ==> r == Err(BadValue))
  {
    hide ParseCommand, Params;
    TakesConversation(name, p, codecs);
  }

  lemma TakesConversation<T(!new), I(!new), D(!new), C(!new)>(name: MethodName, p: Value, codecs: Codecs<T, I, D, C>)
    requires NamesConversation(name)
    ensures var r, field := ParseCommand(name, p, codecs), StringField(p, ConversationIdField);
            match field
            case Err(e) => r == Err(e)
            case Ok(conversation) => r.Ok? && Params(r.value, codecs) == Conversation(conversation)
  {
    hide StringField, OptionalString, NumberOr, BoolField, DecodedField, Decoded, Map2, Map3, Conversation;
  }

  lemma SimpleIfNull<T(!new), I(!new), D(!new), C(!new)>(command: Command<T, I, D>, codecs: Codecs<T, I, D, C>)
    requires codecs.Lawful() && Params(command, codecs).Null?
    ensures IsSimple(command)
  {
  }

  lemma ParamsAvoidContext<T(!new), I(!new), D(!new), C(!new)>(command: Command<T, I, D>, codecs: Codecs<T, I, D, C>)
    requires codecs.Lawful()
    ensures var p := Params(command, codecs);
            p.Null? || (p.Obj? && ContextField !in p.fields)
  {
  }

  // --------------------------------------------------------- extras in the parameters

  /** Adding a field to the parameters; null becomes an object first. */
  function Inject(params: Value, field: FieldName, extra: Option<Value>): Value {
    if extra.None? then params
    else Obj((if params.Obj? then params.fields else map[])[field := extra.value])
  }

  /** Taking a field out of the parameters again. */
  function Extract(params: Value, field: FieldName): (Option<Value>, Value) {
    if params.Obj? && field in params.fields then (Some(params.fields[field]), Obj(params.fields - {field}))
    else (None, params)
  }

  lemma ExtractInjected(params: Value, field: FieldName, extra: Option<Value>)
    requires params.Null? || (params.Obj? && field !in params.fields)
    ensures var r := Extract(Inject(params, field, extra), field);
            r.0 == extra && r.1 == if extra.Some? && params.Null? then Obj(map[]) else params
  {
    if extra.Some? && params.Obj? {
      assert params.fields[field := extra.value] - {field} == params.fields;
    } else if extra.Some? {
      assert map[field := extra.value] - {field} == map[];
    }
  }

  // --------------------------------------------------------------- command envelopes

  datatype CommandEnvelope<T, I, D, C> = CommandEnvelope(requestId: I, command: Command<T, I, D>, context: Option<C>)

  datatype Request<I> = Request(id: I, name: MethodName, params: Option<Value>)

  /** `into_request`. */
  function IntoRequest<T(!new), I(!new), D(!new), C(!new)>(e: CommandEnvelope<T, I, D, C>, codecs: Codecs<T, I, D, C>): Request<I> {
    var context := if e.context.Some? then Some(codecs.context.encode(e.context.value)) else None;
    Request(e.requestId, Method(e.command), Some(Inject(Params(e.command, codecs), ContextField, context)))
  }

  /** `command_from_request`. A context that cannot be read counts as none. */
  function CommandFromRequest<T(!new), I(!new), D(!new), C(!new)>(r: Request<I>, codecs: Codecs<T, I, D, C>)
    : Result<CommandEnvelope<T, I, D, C>, Error>
  {
    var extracted := Extract(if r.params.Some? then r.params.value else Null, ContextField);
    var context := if extracted.0.Some? then codecs.context.decode(extracted.0.value) else None;
    Map(ParseCommand(r.name, extracted.1, codecs), command => CommandEnvelope(r.id, command, context))
  }

  /** Every command arrives with its id and its context, if any. */
  lemma CommandRoundTrip<T(!new), I(!new), D(!new), C(!new)>(e: CommandEnvelope<T, I, D, C>, codecs: Codecs<T, I, D, C>)
    requires codecs.Lawful()
    ensures CommandFromRequest(IntoRequest(e, codecs), codecs) == Ok(e)
  {
    hide ParseCommand, Params, Method, Inject, Extract;
    var params := Params(e.command, codecs);
    var context := if e.context.Some? then Some(codecs.context.encode(e.context.value)) else None;
    ParamsAvoidContext(e.command, codecs);
    ExtractInjected(params, ContextField, context);
    ParsesWhatWasWritten(e.command, codecs, Extract(Inject(params, ContextField, context), ContextField).1);
  }

  // ---------------------------------------------------------------- server envelopes

  datatype ServerMessage<N, I, R> =
    | Notification(notification: N)
    | ServerRequest(requestId: I, conversationId: string, request: R)

  datatype ServerEnvelope<N, I, R> = ServerEnvelope(message: ServerMessage<N, I, R>, eventSeq: Option<nat>)

  datatype ServerMethod = ForKind(kind: Protocol.NotificationKind) | CommandApproval | FileChangeApproval | OtherServerMethod(text: string)

  datatype WireMessage<I> =
    | WireNotification(name: ServerMethod, params: Option<Value>)
    | WireRequest(id: I, name: ServerMethod, params: Option<Value>)
    | WireResponse

  datatype ServerCodecs<!N(!new), !R(!new)> =
    ServerCodecs(notification: Codec<N>, request: Codec<R>, kind: N -> Protocol.NotificationKind, isCommand: R -> bool) {

    ghost predicate Lawful() {
      notification.Lawful() && notification.Avoids(EventSeqField) && request.Lawful()
    }
  }

  function SeqValue(eventSeq: Option<nat>): Option<Value> {
    if eventSeq.Some? then Some(Num(eventSeq.value)) else None
  }

  function ToWire<N(!new), I, R(!new)>(e: ServerEnvelope<N, I, R>, codecs: ServerCodecs<N, R>): WireMessage<I> {
    match e.message
    case Notification(n) =>
      WireNotification(ForKind(codecs.kind(n)), Some(Inject(codecs.notification.encode(n), EventSeqField, SeqValue(e.eventSeq))))
    case ServerRequest(id, conversation, request) =>
      WireRequest(id, if codecs.isCommand(request) then CommandApproval else FileChangeApproval,
        Some(Inject(RequestParams(conversation, request, codecs), EventSeqField, SeqValue(e.eventSeq))))
  }

  function RequestParams<N(!new), R(!new)>(conversation: string, request: R, codecs: ServerCodecs<N, R>): Value {
    Obj(map[ConversationIdField := Str(conversation), RequestField := codecs.request.encode(request)])
  }

  predicate IsListed(name: ServerMethod) {
    name.ForKind? && Protocol.IsListed(name.kind)
  }

  function ParseServerNotification<N(!new), I, R(!new)>(name: ServerMethod, params: Value, codecs: ServerCodecs<N, R>)
    : Result<ServerMessage<N, I, R>, Error>
  {
    if IsListed(name) then Map(Decoded(params, codecs.notification), n => Notification(n)) else Err(UnsupportedMethod)
  }

  function ParseServerRequest<N(!new), I, R(!new)>(id: I, name: ServerMethod, params: Value, codecs: ServerCodecs<N, R>)
    : Result<ServerMessage<N, I, R>, Error>
  {
    if !(name.CommandApproval? || name.FileChangeApproval?) then Err(UnsupportedMethod)
    else if GetField(params, ConversationIdField).Err? then Err(GetField(params, ConversationIdField).error)
    else if GetField(params, RequestField).Err? then Err(GetField(params, RequestField).error)
    else
      Map2(StringField(params, ConversationIdField), DecodedField(params, RequestField, codecs.request),
        (conversation, request) => ServerRequest(id, conversation, request))
  }

  /** A sequence number that is not a number counts as none. */
  function SeqOf(value: Option<Value>): Option<nat> {
    if value.Some? && value.value.Num? then Some(value.value.number) else None
  }

  function FromWire<N(!new), I, R(!new)>(m: WireMessage<I>, codecs: ServerCodecs<N, R>): Result<ServerEnvelope<N, I, R>, Error> {
    if m.WireResponse? then Err(UnsupportedMethod)
    else
      var extracted := Extract(if m.params.Some? then m.params.value else Null, EventSeqField);
      var message :=
        if m.WireNotification? then ParseServerNotification(m.name, extracted.1, codecs)
        else ParseServerRequest(m.id, m.name, extracted.1, codecs);
      Map(message, x => ServerEnvelope(x, SeqOf(extracted.0)))
  }

  /** A server message arrives as it was sent, with its sequence number, exactly when it
      is not the one notification whose method the parser does not list. */
  lemma ServerRoundTripExactly<N(!new), I, R(!new)>(e: ServerEnvelope<N, I, R>, codecs: ServerCodecs<N, R>)
    requires codecs.Lawful()
    ensures FromWire(ToWire(e, codecs), codecs) == Ok(e)
            <==> !(e.message.Notification? && codecs.kind(e.message.notification).ReasoningSummaryPartAdded?)
    ensures !(FromWire(ToWire(e, codecs), codecs) == Ok(e)) ==> FromWire(ToWire(e, codecs), codecs) == Err(UnsupportedMethod)
  {
    hide Inject, Extract;
    match e.message
    case Notification(n) =>
      ExtractInjected(codecs.notification.encode(n), EventSeqField, SeqValue(e.eventSeq));
    case ServerRequest(_, conversation, request) =>
      ExtractInjected(RequestParams(conversation, request, codecs), EventSeqField, SeqValue(e.eventSeq));
  }
}
