/** The records exchanged by the Connector-to-Connector Protocol (CCP). */
module CcpTypes {
  import opened Text

  /** Relation to a peer; a later constructor ranks higher when choosing routes. */
  datatype Relation = NonRoutingAccount | Parent | Peer | Child {
    function Rank(): nat {
      match this
      case NonRoutingAccount => 0
      case Parent => 1
      case Peer => 2
      case Child => 3
    }
  }

  type AccountId = Text

  datatype Account = Account(id: AccountId, relation: Relation, address: Text)

  datatype RouteProp = RouteProp(
    isOptional: bool, isTransitive: bool, isPartial: bool, id: nat, isUtf8: bool, value: seq<Byte>)

  datatype Route = Route(prefix: Text, path: seq<Text>, auth: seq<Byte>, props: seq<RouteProp>)

  /** What a routing table stores under a prefix: the next hop and the route. */
  datatype Entry = Entry(account: Account, route: Route)

  /** One entry of the forwarding-table log: what changed from one epoch to the next. */
  datatype Delta = Delta(newRoutes: seq<Route>, withdrawn: seq<Text>)

  type TableId = seq<Byte>

  datatype Mode = Idle | Sync

  datatype ControlRequest = ControlRequest(
    mode: Mode, lastKnownTableId: TableId, lastKnownEpoch: nat, features: seq<Text>)

  datatype UpdateRequest = UpdateRequest(
    tableId: TableId, currentEpoch: nat, fromEpoch: nat, toEpoch: nat, holdDownTime: nat,
    speaker: Text, newRoutes: seq<Route>, withdrawn: seq<Text>)

  const DUMMY_TABLE_ID: TableId := [0, 0, 0, 0, 0, 0, 0, 0, 0, 0, 0, 0, 0, 0, 0, 0]
  const ZERO_AUTH: seq<Byte> := DUMMY_TABLE_ID + DUMMY_TABLE_ID
  const DEFAULT_HOLD_DOWN_TIME := 30000
}
