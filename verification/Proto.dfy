/** The messages and records of saber/proto that the replicated state machine reads and writes.
    Serialisation is not modelled: a message is the value it carries. */
module Proto {
  newtype byte = x: int | 0 <= x < 256
  type Bytes = seq<byte>

  /** A C++ `static_cast<uint32_t>` of a size. */
  function U32(n: nat): nat {
    n % 0x1_0000_0000
  }

  const INT32_MAX: int := 0x7fff_ffff

  datatype NodeType = Persistent | PersistentSequential | Ephemeral | EphemeralSequential {
    predicate IsEphemeral() {
      Ephemeral? || EphemeralSequential?
    }

    predicate IsSequential() {
      PersistentSequential? || EphemeralSequential?
    }
  }

  datatype ResponseCode =
    | Ok | Failed | NoNode | NoParent | ParentEphemeral | NodeExists
    | ChildrenExists | BadVersion | Unknown | Reconnect | ErrPath

  datatype EventType = NodeCreated | NodeDeleted | NodeDataChanged | NodeChildrenChanged

  datatype Stat = Stat(
    groupId: nat,
    createdId: nat,
    modifiedId: nat,
    createdTime: nat,
    modifiedTime: nat,
    version: nat,
    childrenVersion: nat,
    dataLen: nat,
    childrenNum: nat,
    childrenId: nat,
    ephemeralId: nat)

  const DefaultStat := Stat(0, 0, 0, 0, 0, 0, 0, 0, 0, 0, 0)

  datatype DataNode = DataNode(nodeType: NodeType, stat: Stat, data: Bytes)

  const DefaultNode := DataNode(Persistent, DefaultStat, [])

  datatype Transaction = Transaction(groupId: nat, instanceId: nat, time: nat, sessionId: nat)

  datatype CreateRequest = CreateRequest(nodeType: NodeType, path: string, data: Bytes)
  datatype DeleteRequest = DeleteRequest(path: string, version: int)
  datatype SetDataRequest = SetDataRequest(path: string, data: Bytes, version: int)

  // `path` and `stat` keep their defaults unless the request succeeded.
  datatype CreateResponse = CreateResponse(code: ResponseCode, path: string)
  datatype SetDataResponse = SetDataResponse(code: ResponseCode, stat: Stat)

  datatype ExistsResponse = ExistsResponse(code: ResponseCode, nodeType: NodeType, stat: Stat)
  datatype GetDataResponse = GetDataResponse(code: ResponseCode, nodeType: NodeType, stat: Stat, data: Bytes)
  datatype GetChildrenResponse = GetChildrenResponse(code: ResponseCode, stat: Stat, children: seq<string>)

  datatype Option<+T> = None | Some(value: T)

  // One node of a checkpoint: the node, its path and the names of its children in some order.
  datatype NodeRecord = NodeRecord(path: string, node: DataNode, children: seq<string>)

  // One session of a checkpoint.
  datatype SessionRecord = SessionRecord(sessionId: nat, version: nat)
}
