/** The property-graph data model: values, nodes, relationships, commands and log entries. */
module Model {
  import opened Basics

  type NodeId = u64
  type RelId = u64
  type ShardId = u64
  type ServerId = u64
  type Term = u64
  type LogIndex = u64

  /** A string, held as its UTF-8 bytes; string order is byte order. */
  type Text = bytes

  /** Floating-point numbers are kept as bit patterns. */
  datatype Value =
    | VNull
    | VBool(b: bool)
    | VInt(i: i64)
    | VFloat(bits: u64)
    | VString(s: Text)
    | VVector(items: seq<u32>)
    | VMap(entries: map<Text, Value>)

  type Properties = map<Text, Value>

  datatype Node = Node(id: NodeId, labels: seq<Text>, properties: Properties)

  datatype BoundaryNode = BoundaryNode(
    id: NodeId, ownerShard: ShardId, labels: seq<Text>, properties: Properties, version: u64)

  datatype Relationship = Relationship(
    id: RelId, from: NodeId, to: NodeId, relType: Text, properties: Properties)

  datatype ShardRole = Primary | Replica
  datatype ShardReplica = ShardReplica(serverId: ServerId, role: ShardRole)
  datatype ShardPlacement = ShardPlacement(shardId: ShardId, replicas: seq<ShardReplica>)
  datatype RoutingTable = RoutingTable(version: u64, placements: seq<ShardPlacement>)

  datatype Command =
    | CreateNode(id: NodeId, labels: seq<Text>, properties: Properties)
    | CreateRelationship(relId: RelId, from: NodeId, to: NodeId, relType: Text, properties: Properties)
    | UpsertBoundaryNode(id: NodeId, ownerShard: ShardId, labels: seq<Text>, properties: Properties, version: u64)
    | SetNodeProperty(id: NodeId, key: Text, value: Value)
    | RemoveNodeProperty(id: NodeId, key: Text)
    | AddNodeLabel(id: NodeId, tag: Text)
    | RemoveNodeLabel(id: NodeId, tag: Text)
    | SetRelationshipProperty(relId: RelId, key: Text, value: Value)
    | RemoveRelationshipProperty(relId: RelId, key: Text)
    | DeleteRelationship(relId: RelId)
    | DeleteNode(id: NodeId)
    | ClusterConfigChange(phase: Text, description: Text, voters: seq<ServerId>, routingTable: RoutingTable)

  datatype Timestamp = Timestamp(physicalMs: u64, logical: u32)

  datatype LogEntry = LogEntry(
    shardId: ShardId, term: Term, index: LogIndex,
    origin: ServerId, configVersion: u64, timestamp: Timestamp, command: Command)

  /** `LogEntry::new`: no origin, no configuration version, zero timestamp. */
  function PlainEntry(shardId: ShardId, term: Term, index: LogIndex, command: Command): LogEntry {
    LogEntry(shardId, term, index, 0, 0, Timestamp(0, 0), command)
  }
}
