/** Server messages, and which of them must reach the client whatever the load. */
module Protocol {

  datatype NotificationKind =
    | ConversationViewChanged
    | TurnStarted
    | ItemStarted
    | AgentMessageDelta
    | PlanDelta
    | ReasoningSummaryPartAdded
    | ReasoningSummaryTextDelta
    | ReasoningTextDelta
    | CommandExecutionOutputDelta
    | ToolOutputDelta
    | JsonPatchDelta
    | ItemProgress
    | ItemMetricsUpdated
    | TokenUsageUpdated
    | ModelRetrying
    | ContextCompacted
    | ContextCompactionStarted
    | ItemCompleted
    | ServerRequestRequested
    | ServerRequestResolved
    | TurnCompleted
    | TurnFailed
    | TurnCancelled
    | InterruptResult
    | ConversationHistory
    | TurnSnapshot
    | ConversationHistoryPage
    | ConversationListPage
    | SkillsChanged
    | OnlineNodeList
    | ConversationSwitched
    | ConversationSubscriptionChanged
    | Info
    | Error

  datatype ServerMessage =
    | Notification(kind: NotificationKind, conversationId: string, body: string)
    | Request(requestId: int, conversationId: string, body: string)

  /** `classify_notification`: output deltas and diagnostics are best effort. */
  predicate IsBestEffort(kind: NotificationKind) {
    kind.CommandExecutionOutputDelta? || kind.ToolOutputDelta? || kind.Info? || kind.Error?
  }

  /** The kinds whose method `parse_server_notification` lists. */
  predicate IsListed(kind: NotificationKind) {
    !kind.ReasoningSummaryPartAdded?
  }

  /** The client can parse what the server writes for this message. */
  predicate CanBeRead(message: ServerMessage) {
    message.Notification? ==> IsListed(message.kind)
  }

  datatype Event = Message(message: ServerMessage) | Lagged(skipped: nat) | Disconnected(reason: string)

  /** `event_requires_delivery`. */
  predicate RequiresDelivery(event: Event) {
    event.Message? && (event.message.Request? || !IsBestEffort(event.message.kind))
  }

  /** Requests, and the notifications the classification lists as lossless, must be
      delivered; markers and the notice of the end need not. */
  lemma MustBeDelivered(event: Event)
    ensures RequiresDelivery(event) <==>
            match event
            case Lagged(_) => false
            case Disconnected(_) => false
            case Message(Request(_, _, _)) => true
            case Message(Notification(kind, _, _)) =>
              || kind.AgentMessageDelta? || kind.PlanDelta? || kind.ReasoningSummaryPartAdded? || kind.ReasoningSummaryTextDelta?
              || kind.ReasoningTextDelta? || kind.ItemCompleted? || kind.TurnSnapshot? || kind.TurnCompleted? || kind.TurnStarted?
              || kind.ConversationViewChanged? || kind.ItemStarted? || kind.ItemProgress? || kind.ItemMetricsUpdated?
              || kind.ServerRequestRequested? || kind.ServerRequestResolved? || kind.TokenUsageUpdated? || kind.ModelRetrying?
              || kind.ContextCompacted? || kind.ContextCompactionStarted? || kind.TurnFailed? || kind.TurnCancelled?
              || kind.InterruptResult? || kind.ConversationHistory? || kind.ConversationHistoryPage? || kind.ConversationListPage?
              || kind.SkillsChanged? || kind.OnlineNodeList? || kind.ConversationSwitched? || kind.ConversationSubscriptionChanged?
              || kind.JsonPatchDelta?
  {
  }
}
