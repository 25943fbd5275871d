/** The data the fixture DSS keeps and the data its handlers take in and send out. */
module FixtureState {
  import opened Wrappers

  const QUERY_REFERENCES := "dss.query_references"
  const GET_REFERENCE := "dss.get_reference"
  const CREATE_REFERENCE := "dss.create_reference"
  const UPDATE_REFERENCE := "dss.update_reference"
  const DELETE_REFERENCE := "dss.delete_reference"
  const QUERY_SUBSCRIPTIONS := "dss.query_subscriptions"
  const PEER_DETAILS := "peer.get_details"
  const PEER_NOTIFY := "peer.notify"

  /** What the server advertises; fixed when it is built. */
  datatype Config = Config(manager: string, peerBaseUrl: string, subscriberUrl: string)

  /** Trailing slashes of advertised URLs are dropped. */
  function TrimSlashes(url: string): (r: string)
    ensures r <= url && (r != "" ==> Last(r) != '/')
    ensures forall i :: |r| <= i < |url| ==> url[i] == '/'
  {
    if url != "" && Last(url) == '/' then TrimSlashes(Front(url)) else url
  }

  datatype FaultPlan = FaultPlan(
    operation: string, times: int, status: int, delayMillis: int,
    closeAfterCommit: bool, malformedJson: bool)

  datatype FaultSnapshot = FaultSnapshot(
    status: int, delayMillis: int, closeAfterCommit: bool, malformedJson: bool)

  function Behaviour(plan: FaultPlan): FaultSnapshot {
    FaultSnapshot(plan.status, plan.delayMillis, plan.closeAfterCommit, plan.malformedJson)
  }

  /** Times are seconds; `volumes` are the undecoded extents of the request. */
  datatype Reference = Reference(
    id: string, manager: string, ovn: string, state: string, subscriptionId: string,
    ussAvailability: string, ussBaseUrl: string, version: nat,
    timeStart: int, timeEnd: int, volumes: seq<string>)

  type Store = map<string, Reference>
  type Faults = map<string, FaultPlan>

  datatype Event = Event(
    sequence: nat, at: int, operation: string, httpMethod: string, path: string,
    intentId: string, status: int, fault: Option<FaultSnapshot>)

  datatype ServerState = ServerState(references: Store, faults: Faults, events: seq<Event>, sequence: nat)

  const EMPTY_SERVER := ServerState(map[], map[], [], 0)

  datatype PutBody = PutBody(state: string, ussBaseUrl: string, extents: seq<string>)

  /** One request; a body that does not decode is None. */
  datatype Call =
    | Create(id: string, body: Option<PutBody>)
    | Update(id: string, ovn: string, body: Option<PutBody>)
    | Delete(id: string, ovn: string)
    | GetReference(id: string)
    | PeerDetails(id: string)
    | QueryReferences
    | Subscriptions
    | PeerNotify
    | RotateOvn(id: string)
    | Reset
    | ReadState
    | ReadEvents
    | ArmFault(plan: Option<FaultPlan>)
    | ClearFaults
  {
    /** DSS and peer requests can be faulted and are journaled; the control plane is neither. */
    predicate Federated() {
      || Create? || Update? || Delete? || GetReference?
      || PeerDetails? || QueryReferences? || Subscriptions? || PeerNotify?
    }

    function Operation(): string
      requires Federated()
    {
      match this
      case Create(_, _) => CREATE_REFERENCE
      case Update(_, _, _) => UPDATE_REFERENCE
      case Delete(_, _) => DELETE_REFERENCE
      case GetReference(_) => GET_REFERENCE
      case PeerDetails(_) => PEER_DETAILS
      case QueryReferences => QUERY_REFERENCES
      case Subscriptions => QUERY_SUBSCRIPTIONS
      case PeerNotify => PEER_NOTIFY
    }

    /** The intent id written to the journal; requests without one journal the empty string. */
    function IntentId(): string {
      if Create? || Update? || Delete? || GetReference? || PeerDetails? then id else ""
    }
  }

  datatype Request = Request(call: Call, httpMethod: string, path: string)

  datatype Body =
    | Nothing
    | Message(text: string)
    | DecodeError
    | StaleOvn(currentOvn: string)
    | Committed(reference: Reference, subscribers: seq<string>)
    | One(reference: Reference)
    | Details(reference: Reference)
    | Listing(references: Store)
    | NoSubscriptions
    | Journal(events: seq<Event>)
    | Armed(plan: FaultPlan)
    | Truncated

  /** A dropped or abandoned connection is a reply the client never sees. */
  datatype Reply = NoReply | Answer(status: int, body: Body)

  function WriteJson(status: int, body: Body): Reply {
    if status == 204 then Answer(status, Nothing) else Answer(status, body)
  }

  /** The part of `respond` after journaling. */
  function Respond(status: int, body: Body, fault: Option<FaultSnapshot>): Reply {
    if fault.Some? && fault.value.malformedJson then Answer(status, Truncated) else WriteJson(status, body)
  }

  predicate Acceptable(plan: FaultPlan) {
    plan.operation != "" && plan.times > 0 && plan.delayMillis >= 0 && 0 <= plan.status <= 599
  }
}
