/** Events of the file watcher, as the backend reports them and clients see them. */
module WatchEvents {
  import opened Prelude

  datatype EventKind = Created | Modified | Removed | RenamedOld | RenamedNew | Metadata | Overflow | Error
  datatype PathType = File | Directory | Other | UnknownType
  datatype StreamState = Clean | Degraded | Stopped

  /** The diagnostic codes the watcher itself attaches or looks for. */
  datatype Code = QueueOverflow | SettleTimeout | SettleReady | CallbackException | OtherCode(name: string)

  /** Messages that carry a number keep it; all others are opaque text. */
  datatype Message = DroppedEvents(count: nat) | CapacityExceeded(capacity: nat) | Text(text: string)

  datatype Diagnostic = Diagnostic(code: Code, message: Message)

  /** `serial` is the position of the event in the backend's stream. The source
      has no such field; it only tells apart events that are otherwise equal. */
  datatype Event = Event(
    serial: nat,
    kind: EventKind,
    source: nat,
    path: string,
    relative: Option<string>,
    pathType: PathType,
    rescan: bool,
    state: StreamState,
    diagnostics: seq<Diagnostic>)
}
