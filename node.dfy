/** The synchronising node (`src/server.rs`): the 12-byte command header,
    the decoding of a request into a `Message`, and the handlers that
    change the node's registry of peers and its queue of blocks in transit.
    Payload (de)serialization and the sockets are outside the model: the
    decoders are parameters, a send is an entry in an effect log, and
    whether a peer accepts a connection is a parameter. */
module Node {
  import opened Common
  import opened Transactions
  import Blocks
  import Utxo

  /** `KNOWN_NODE1`. */
  const KnownNode1: string := "localhost:3000"

  /** `CMD_LEN`: the size of the command header. */
  const CmdLen: nat := 12

  /** `VERSION`. */
  const ProtocolVersion: i32 := 1

  datatype Blockmsg = Blockmsg(addrFrom: string, block: Blocks.Block)
  datatype GetBlockmsg = GetBlockmsg(addrFrom: string)
  datatype GetDatamsg = GetDatamsg(addrFrom: string, kind: string, id: string)
  datatype Invmsg = Invmsg(addrFrom: string, kind: string, items: seq<string>)
  datatype Txmsg = Txmsg(addrFrom: string, transaction: Transaction)
  datatype Versionmsg = Versionmsg(addrFrom: string, version: i32, bestHeight: i32)

  /** `Message`: one variant per command. */
  datatype Message =
    | Addr(nodes: seq<string>)
    | Version(versionMsg: Versionmsg)
    | Tx(txMsg: Txmsg)
    | GetData(getDataMsg: GetDatamsg)
    | GetBlock(getBlockMsg: GetBlockmsg)
    | Inv(invMsg: Invmsg)
    | Block(blockMsg: Blockmsg)

  /** The bincode decoders of the seven payload types. */
  datatype Decoders = Decoders(
    addr: Bytes -> Result<seq<string>>,
    block: Bytes -> Result<Blockmsg>,
    inv: Bytes -> Result<Invmsg>,
    getBlocks: Bytes -> Result<GetBlockmsg>,
    getData: Bytes -> Result<GetDatamsg>,
    tx: Bytes -> Result<Txmsg>,
    version: Bytes -> Result<Versionmsg>)

  /** `n` zero bytes. */
  function Zeros(n: nat): (r: Bytes)
    ensures |r| == n && forall i | 0 <= i < n :: r[i] == 0
  {
    seq(n, _ => 0)
  }

  /** The header for a tag: its bytes, then zeros up to `CmdLen`. */
  function Padded(tag: Bytes): (r: Bytes)
    requires |tag| <= CmdLen
    ensures |r| == CmdLen
    ensures forall i | 0 <= i < |tag| :: r[i] == tag[i]
    ensures forall i | |tag| <= i < CmdLen :: r[i] == 0
  {
    tag + Zeros(CmdLen - |tag|)
  }

  /** `cmd_to_bytes`: copies the command's bytes into a zeroed 12-byte
      array. A command longer than 12 bytes indexes out of bounds. */
  method CmdToBytes(cmd: string) returns (data: Bytes)
    requires |Utf8(cmd)| <= CmdLen
    ensures data == Padded(Utf8(cmd))
  {
    var buffer := new byte[CmdLen](_ => 0);
    var bytes := Utf8(cmd);
    for i := 0 to |bytes|
      invariant forall j | 0 <= j < i :: buffer[j] == bytes[j]
      invariant forall j | i <= j < CmdLen :: buffer[j] == 0
    {
      buffer[i] := bytes[i];
    }
    data := buffer[..];
  }

  /** The bytes of `b` that are not zero, in order. */
  function StripZeros(b: Bytes): Bytes
    decreases |b|
  {
    if b == [] then []
    else StripZeros(b[..|b| - 1]) + (if b[|b| - 1] != 0 then [b[|b| - 1]] else [])
  }

  /** Stripping keeps every non-zero byte as often as it occurs and drops
      every zero, wherever it stands. */
  lemma {:induction false} StripZerosKeepsNonZero(b: Bytes)
    ensures forall i | 0 <= i < |StripZeros(b)| :: StripZeros(b)[i] != 0
    ensures forall v: byte | v != 0 :: multiset(StripZeros(b))[v] == multiset(b)[v]
    decreases |b|
  {
    if b != [] {
      var init, last := b[..|b| - 1], b[|b| - 1];
      StripZerosKeepsNonZero(init);
      assert b == init + [last];
      var tail: Bytes := if last != 0 then [last] else [];
      forall i | 0 <= i < |StripZeros(init) + tail| ensures (StripZeros(init) + tail)[i] != 0 {
        if i >= |StripZeros(init)| {
          assert (StripZeros(init) + tail)[i] == tail[i - |StripZeros(init)|];
        }
      }
    }
  }

  /** A zero-free byte string is its own stripped form. */
  lemma {:induction false} StripZerosOfZeroFree(b: Bytes)
    requires forall i | 0 <= i < |b| :: b[i] != 0
    ensures StripZeros(b) == b
    decreases |b|
  {
    if b != [] {
      StripZerosOfZeroFree(b[..|b| - 1]);
      assert b[..|b| - 1] + [b[|b| - 1]] == b;
    }
  }

  /** Stripping distributes over concatenation. */
  lemma {:induction false} StripZerosAppend(a: Bytes, b: Bytes)
    ensures StripZeros(a + b) == StripZeros(a) + StripZeros(b)
    decreases |b|
  {
    if b == [] {
      assert a + b == a;
    } else {
      var init := b[..|b| - 1];
      StripZerosAppend(a, init);
      assert (a + b)[..|a + b| - 1] == a + init;
      assert (a + b)[|a + b| - 1] == b[|b| - 1];
    }
  }

  /** Stripping the zero padding: appending zeros changes nothing. */
  lemma {:induction false} StripZerosOfZeros(b: Bytes, n: nat)
    ensures StripZeros(b + Zeros(n)) == StripZeros(b)
    decreases n
  {
    if n > 0 {
      var x := b + Zeros(n);
      assert x[..|x| - 1] == b + Zeros(n - 1);
      assert x[|x| - 1] == 0;
      StripZerosOfZeros(b, n - 1);
    } else {
      assert b + Zeros(n) == b;
    }
  }

  /** Round trip of the header: the tag of a zero-free command of at most
      12 bytes comes back unchanged. */
  lemma HeaderRoundTrip(tag: Bytes)
    requires |tag| <= CmdLen && forall i | 0 <= i < |tag| :: tag[i] != 0
    ensures StripZeros(Padded(tag)) == tag
  {
    StripZerosOfZeros(tag, CmdLen - |tag|);
    StripZerosOfZeroFree(tag);
  }

  /** The loop of `bytes_to_cmd` that collects the non-zero header bytes. */
  method HeaderTag(bytes: Bytes) returns (cmd: Bytes)
    requires |bytes| >= CmdLen
    ensures cmd == StripZeros(bytes[..CmdLen])
  {
    var cmdBytes := bytes[..CmdLen];
    cmd := [];
    for i := 0 to CmdLen
      invariant cmd == StripZeros(cmdBytes[..i])
    {
      assert cmdBytes[..i + 1][..i] == cmdBytes[..i];
      if cmdBytes[i] != 0 {
        cmd := cmd + [cmdBytes[i]];
      }
    }
    assert cmdBytes[..CmdLen] == cmdBytes;
  }

  /** The variants as functions of their payloads. */
  const AsAddr: seq<string> -> Message := nodes => Addr(nodes)
  const AsBlock: Blockmsg -> Message := m => Block(m)
  const AsInv: Invmsg -> Message := m => Inv(m)
  const AsGetBlock: GetBlockmsg -> Message := m => GetBlock(m)
  const AsGetData: GetDatamsg -> Message := m => GetData(m)
  const AsTx: Txmsg -> Message := m => Tx(m)
  const AsVersion: Versionmsg -> Message := m => Version(m)

  /** A decoder result carried into a message variant. */
  function Wrap<T>(d: Result<T>, variant: T -> Message): (r: Result<Message>)
    ensures d.Ok? <==> r.Ok?
    ensures d.Ok? ==> r.value == variant(d.value)
    ensures d.Err? ==> r.error == d.error
  {
    match d
    case Ok(v) => Ok(variant(v))
    case Err(e) => Err(e)
  }

  /** The seven tags, as the bytes of their ASCII names. */
  const AddrTag: Bytes := [0x61, 0x64, 0x64, 0x72]
  const BlockTag: Bytes := [0x62, 0x6c, 0x6f, 0x63, 0x6b]
  const InvTag: Bytes := [0x69, 0x6e, 0x76]
  const GetBlocksTag: Bytes := [0x67, 0x65, 0x74, 0x62, 0x6c, 0x6f, 0x63, 0x6b, 0x73]
  const GetDataTag: Bytes := [0x67, 0x65, 0x74, 0x64, 0x61, 0x74, 0x61]
  const TxTag: Bytes := [0x74, 0x78]
  const VersionTag: Bytes := [0x76, 0x65, 0x72, 0x73, 0x69, 0x6f, 0x6e]

  predicate IsKnownTag(tag: Bytes)
  {
    tag in {AddrTag, BlockTag, InvTag, GetBlocksTag, GetDataTag, TxTag, VersionTag}
  }

  /** The command selection of `bytes_to_cmd`: the tag picks the decoder
      and the variant; an unknown tag is an error. */
  function Dispatch(tag: Bytes, data: Bytes, dec: Decoders): Result<Message>
  {
    if tag == AddrTag then Wrap(dec.addr(data), AsAddr)
    else if tag == BlockTag then Wrap(dec.block(data), AsBlock)
    else if tag == InvTag then Wrap(dec.inv(data), AsInv)
    else if tag == GetBlocksTag then Wrap(dec.getBlocks(data), AsGetBlock)
    else if tag == GetDataTag then Wrap(dec.getData(data), AsGetData)
    else if tag == TxTag then Wrap(dec.tx(data), AsTx)
    else if tag == VersionTag then Wrap(dec.version(data), AsVersion)
    else Err(UnknownCommand)
  }

  /** `bytes_to_cmd`: header tag, then payload decoding. Fewer than 12
      bytes make the slice panic. */
  method BytesToCmd(bytes: Bytes, dec: Decoders) returns (r: Result<Message>)
    requires |bytes| >= CmdLen
    ensures r == Dispatch(StripZeros(bytes[..CmdLen]), bytes[CmdLen..], dec)
  {
    var cmd := HeaderTag(bytes);
    var data := bytes[CmdLen..];
    if cmd == AddrTag {
      r := Wrap(dec.addr(data), AsAddr);
    } else if cmd == BlockTag {
      r := Wrap(dec.block(data), AsBlock);
    } else if cmd == InvTag {
      r := Wrap(dec.inv(data), AsInv);
    } else if cmd == GetBlocksTag {
      r := Wrap(dec.getBlocks(data), AsGetBlock);
    } else if cmd == GetDataTag {
      r := Wrap(dec.getData(data), AsGetData);
    } else if cmd == TxTag {
      r := Wrap(dec.tx(data), AsTx);
    } else if cmd == VersionTag {
      r := Wrap(dec.version(data), AsVersion);
    } else {
      r := Err(UnknownCommand);
    }
  }

  /** A request: the header of `cmd` followed by the payload. */
  function Frame(cmd: string, data: Bytes): Bytes
    requires |Utf8(cmd)| <= CmdLen
  {
    Padded(Utf8(cmd)) + data
  }

  /** Decoding a framed request recovers the header's tag. */
  lemma FrameTag(cmd: string, data: Bytes)
    requires |Utf8(cmd)| <= CmdLen && IsAscii(cmd) && forall i | 0 <= i < |cmd| :: cmd[i] != '\0'
    ensures StripZeros(Frame(cmd, data)[..CmdLen]) == Utf8(cmd)
    ensures Frame(cmd, data)[CmdLen..] == data
  {
    Utf8ZeroFree(cmd);
    assert Frame(cmd, data)[..CmdLen] == Padded(Utf8(cmd));
    HeaderRoundTrip(Utf8(cmd));
  }

  /** The seven commands. */
  const KnownCommands: set<string> := {"addr", "block", "inv", "getblocks", "getdata", "tx", "version"}

  /** The message a known command's payload decodes to, by command name. */
  function Selected(cmd: string, data: Bytes, dec: Decoders): Result<Message>
  {
    match cmd
    case "addr" => Wrap(dec.addr(data), AsAddr)
    case "block" => Wrap(dec.block(data), AsBlock)
    case "inv" => Wrap(dec.inv(data), AsInv)
    case "getblocks" => Wrap(dec.getBlocks(data), AsGetBlock)
    case "getdata" => Wrap(dec.getData(data), AsGetData)
    case "tx" => Wrap(dec.tx(data), AsTx)
    case "version" => Wrap(dec.version(data), AsVersion)
    case _ => Err(UnknownCommand)
  }

  /** An ASCII string encodes to its code points. */
  lemma AsciiEncoding(s: string, tag: Bytes)
    requires IsAscii(s) && |tag| == |s| && forall i | 0 <= i < |s| :: tag[i] == s[i] as int
    ensures Utf8(s) == tag
  {
    Utf8Ascii(s);
  }

  /** The tag constants are the encodings of the seven command names. */
  lemma TagsAreTheCommandNames()
    ensures Utf8("addr") == AddrTag && Utf8("block") == BlockTag && Utf8("inv") == InvTag
    ensures Utf8("getblocks") == GetBlocksTag && Utf8("getdata") == GetDataTag
    ensures Utf8("tx") == TxTag && Utf8("version") == VersionTag
  {
    AddrEncoding();
    BlockEncoding();
    InvEncoding();
    GetBlocksEncoding();
    GetDataEncoding();
    TxEncoding();
    VersionEncoding();
  }

  /** One lemma per tag: each is the UTF-8 encoding of its command name. */
  lemma AddrEncoding()
    ensures Utf8("addr") == AddrTag
  {
    AsciiEncoding("addr", AddrTag);
  }

  lemma BlockEncoding()
    ensures Utf8("block") == BlockTag
  {
    AsciiEncoding("block", BlockTag);
  }

  lemma InvEncoding()
    ensures Utf8("inv") == InvTag
  {
    AsciiEncoding("inv", InvTag);
  }

  lemma GetBlocksEncoding()
    ensures Utf8("getblocks") == GetBlocksTag
  {
    AsciiEncoding("getblocks", GetBlocksTag);
  }

  lemma GetDataEncoding()
    ensures Utf8("getdata") == GetDataTag
  {
    AsciiEncoding("getdata", GetDataTag);
  }

  lemma TxEncoding()
    ensures Utf8("tx") == TxTag
  {
    AsciiEncoding("tx", TxTag);
  }

  lemma VersionEncoding()
    ensures Utf8("version") == VersionTag
  {
    AsciiEncoding("version", VersionTag);
  }

  /** Each of the seven commands, framed by `cmd_to_bytes`, selects its
      own variant with the matching decoder. */
  lemma CommandSelectsItsVariant(cmd: string, data: Bytes, dec: Decoders)
    requires cmd in KnownCommands
    ensures |Utf8(cmd)| <= CmdLen && Dispatch(StripZeros(Frame(cmd, data)[..CmdLen]), data, dec) == Selected(cmd, data, dec)
  {
    if cmd == "addr" {
      AddrSelects(data, dec);
    } else if cmd == "block" {
      BlockSelects(data, dec);
    } else if cmd == "inv" {
      InvSelects(data, dec);
    } else if cmd == "getblocks" {
      GetBlocksSelects(data, dec);
    } else if cmd == "getdata" {
      GetDataSelects(data, dec);
    } else if cmd == "tx" {
      TxSelects(data, dec);
    } else {
      VersionSelects(data, dec);
    }
  }

  /** One lemma per command: its framed header selects its variant. */
  lemma AddrSelects(data: Bytes, dec: Decoders)
    ensures |Utf8("addr")| <= CmdLen
    ensures Dispatch(StripZeros(Frame("addr", data)[..CmdLen]), data, dec) == Wrap(dec.addr(data), AsAddr)
  {
    AddrEncoding();
    FramedTag("addr", AddrTag, data);
  }

  lemma BlockSelects(data: Bytes, dec: Decoders)
    ensures |Utf8("block")| <= CmdLen
    ensures Dispatch(StripZeros(Frame("block", data)[..CmdLen]), data, dec) == Wrap(dec.block(data), AsBlock)
  {
    BlockEncoding();
    FramedTag("block", BlockTag, data);
  }

  lemma InvSelects(data: Bytes, dec: Decoders)
    ensures |Utf8("inv")| <= CmdLen
    ensures Dispatch(StripZeros(Frame("inv", data)[..CmdLen]), data, dec) == Wrap(dec.inv(data), AsInv)
  {
    InvEncoding();
    FramedTag("inv", InvTag, data);
  }

  lemma GetBlocksSelects(data: Bytes, dec: Decoders)
    ensures |Utf8("getblocks")| <= CmdLen
    ensures Dispatch(StripZeros(Frame("getblocks", data)[..CmdLen]), data, dec) == Wrap(dec.getBlocks(data), AsGetBlock)
  {
    GetBlocksEncoding();
    FramedTag("getblocks", GetBlocksTag, data);
  }

  lemma GetDataSelects(data: Bytes, dec: Decoders)
    ensures |Utf8("getdata")| <= CmdLen
    ensures Dispatch(StripZeros(Frame("getdata", data)[..CmdLen]), data, dec) == Wrap(dec.getData(data), AsGetData)
  {
    GetDataEncoding();
    FramedTag("getdata", GetDataTag, data);
  }

  lemma TxSelects(data: Bytes, dec: Decoders)
    ensures |Utf8("tx")| <= CmdLen
    ensures Dispatch(StripZeros(Frame("tx", data)[..CmdLen]), data, dec) == Wrap(dec.tx(data), AsTx)
  {
    TxEncoding();
    FramedTag("tx", TxTag, data);
  }

  lemma VersionSelects(data: Bytes, dec: Decoders)
    ensures |Utf8("version")| <= CmdLen
    ensures Dispatch(StripZeros(Frame("version", data)[..CmdLen]), data, dec) == Wrap(dec.version(data), AsVersion)
  {
    VersionEncoding();
    FramedTag("version", VersionTag, data);
  }

  /** The framed header of a command whose encoding is a zero-free `tag`
      strips back to `tag`. */
  lemma FramedTag(cmd: string, tag: Bytes, data: Bytes)
    requires Utf8(cmd) == tag && |tag| <= CmdLen && forall i | 0 <= i < |tag| :: tag[i] != 0
    ensures |Utf8(cmd)| <= CmdLen && StripZeros(Frame(cmd, data)[..CmdLen]) == tag
  {
    assert Frame(cmd, data)[..CmdLen] == Padded(tag);
    HeaderRoundTrip(tag);
  }

  /** Any other tag is refused. */
  lemma UnknownTagIsRefused(tag: Bytes, data: Bytes, dec: Decoders)
    requires !IsKnownTag(tag)
    ensures Dispatch(tag, data, dec) == Err(UnknownCommand)
  {
  }

  /** `a\0ddr` followed by zeros: the header with a zero inside `addr`. */
  const InteriorZeroHeader: Bytes := [0x61, 0, 0x64, 0x64, 0x72, 0, 0, 0, 0, 0, 0, 0]

  lemma InteriorZeroHeaderStrips()
    ensures StripZeros(InteriorZeroHeader) == AddrTag
  {
    var a: Bytes, z: Bytes, ddr: Bytes := [0x61], [0], [0x64, 0x64, 0x72];
    assert InteriorZeroHeader == ((a + z) + ddr) + Zeros(7);
    StripZerosOfZeros((a + z) + ddr, 7);
    StripZerosAppend(a + z, ddr);
    StripZerosAppend(a, z);
    StripZerosOfZeroFree(a);
    StripZerosOfZeroFree(ddr);
    assert z[..0] == [];
    assert a + ddr == AddrTag;
  }

  /** Zeros inside the header are dropped too: `a\0ddr` followed by zeros
      reads as the `addr` command. */
  lemma InteriorZeroIsIgnored(data: Bytes, dec: Decoders)
    ensures StripZeros(InteriorZeroHeader) == Utf8("addr")
    ensures Dispatch(StripZeros(InteriorZeroHeader), data, dec) == Wrap(dec.addr(data), AsAddr)
  {
    AddrEncoding();
    InteriorZeroHeaderStrips();
  }

  /** What the node does that is visible outside it. The handlers and
      `Server::add_block`, whose bodies are not part of this model, are
      recorded as calls. */
  datatype Effect =
    | Sent(to: string, msg: Message)
    | AddBlockCall(block: Blocks.Block)
    | ReindexCall
    | HandlerCall(msg: Message)

  /** What `send_data` delivers: nothing to the node itself or to a peer
      that refuses the connection. */
  function Delivery(self: string, addr: string, msg: Message, reachable: bool): (r: seq<Effect>)
    ensures r != [] <==> addr != self && reachable
  {
    if addr == self || !reachable then [] else [Sent(addr, msg)]
  }

  /** The registry after `send_data`: an unreachable peer other than the
      node itself is forgotten. */
  function AfterSend(known: set<string>, self: string, addr: string, reachable: bool): (r: set<string>)
    ensures r <= known && known - r <= {addr}
    ensures addr in r <==> addr in known && (addr == self || reachable)
  {
    if addr != self && !reachable then known - {addr} else known
  }

  /** The addresses a list advertises. */
  function Advertised(nodes: seq<string>): (r: set<string>)
    ensures forall n :: n in r <==> n in nodes
  {
    set i | 0 <= i < |nodes| :: nodes[i]
  }

  /** The part of a node's state that handling a message can change. */
  datatype NodeView = NodeView(knownNodes: set<string>, blocksInTransit: seq<string>, effects: seq<Effect>)

  /** The node's state after one decoded request: `handle_addr` for
      `addr`, `handle_block` for `block`, and a call to the handler of
      every other command. */
  function Handled(v: NodeView, self: string, msg: Message, reachable: bool): (r: NodeView)
    ensures v.effects <= r.effects
    ensures msg.Addr? ==> r.knownNodes == v.knownNodes + Advertised(msg.nodes)
                          && r.blocksInTransit == v.blocksInTransit && r.effects == v.effects
    ensures msg.Block? && v.blocksInTransit != [] ==>
              r.blocksInTransit == v.blocksInTransit[1..]
              && r.knownNodes == AfterSend(v.knownNodes, self, msg.blockMsg.addrFrom, reachable)
              && r.effects == v.effects + [AddBlockCall(msg.blockMsg.block)]
                              + Delivery(self, msg.blockMsg.addrFrom,
                                         GetData(GetDatamsg(self, "block", v.blocksInTransit[0])), reachable)
    ensures msg.Block? && v.blocksInTransit == [] ==>
              r.blocksInTransit == [] && r.knownNodes == v.knownNodes
              && r.effects == v.effects + [AddBlockCall(msg.blockMsg.block), ReindexCall]
    ensures !msg.Addr? && !msg.Block? ==>
              r.knownNodes == v.knownNodes && r.blocksInTransit == v.blocksInTransit
              && r.effects == v.effects + [HandlerCall(msg)]
  {
    match msg
    case Addr(nodes) => v.(knownNodes := v.knownNodes + Advertised(nodes))
    case Block(data) =>
      if v.blocksInTransit != [] then
        NodeView(AfterSend(v.knownNodes, self, data.addrFrom, reachable), v.blocksInTransit[1..],
                 v.effects + [AddBlockCall(data.block)]
                 + Delivery(self, data.addrFrom, GetData(GetDatamsg(self, "block", v.blocksInTransit[0])), reachable))
      else
        v.(effects := v.effects + [AddBlockCall(data.block), ReindexCall])
    case _ => v.(effects := v.effects + [HandlerCall(msg)])
  }

  /** Every block a request carries reaches `add_block`, and only a block
      request makes the node forget a peer or shorten its queue. */
  lemma HandledBlockIsAdded(v: NodeView, self: string, msg: Message, reachable: bool)
    ensures var r := Handled(v, self, msg, reachable);
            (msg.Block? ==> AddBlockCall(msg.blockMsg.block) in r.effects)
            && (!msg.Block? ==> v.knownNodes <= r.knownNodes && r.blocksInTransit == v.blocksInTransit)
  {
  }

  /** `Server` together with its `ServerInner`: the lock around the inner
      state is not modelled. */
  class Server {
    const nodeAddress: string
    const miningAddress: string
    const utxo: Utxo.UTXOSet
    var knownNodes: set<string>
    var blocksInTransit: seq<string>
    var mempool: map<string, Transaction>
    var effects: seq<Effect>

    /** The state a handler can change. */
    function View(): NodeView
      reads this
    {
      NodeView(knownNodes, blocksInTransit, effects)
    }

    /** `Server::new`. */
    constructor New(port: string, minerAddress: string, utxo: Utxo.UTXOSet)
      ensures nodeAddress == "localhost:" + port && miningAddress == minerAddress && this.utxo == utxo
      ensures knownNodes == {KnownNode1} && blocksInTransit == [] && mempool == map[] && effects == []
    {
      nodeAddress := "localhost:" + port;
      miningAddress := minerAddress;
      this.utxo := utxo;
      knownNodes := {KnownNode1};
      blocksInTransit := [];
      mempool := map[];
      effects := [];
    }

    /** `add_nodes`. */
    method AddNodes(addr: string)
      modifies this
      ensures knownNodes == old(knownNodes) + {addr}
      ensures blocksInTransit == old(blocksInTransit) && mempool == old(mempool) && effects == old(effects)
    {
      knownNodes := knownNodes + {addr};
    }

    /** `remove_node`. */
    method RemoveNode(addr: string)
      modifies this
      ensures knownNodes == old(knownNodes) - {addr}
      ensures blocksInTransit == old(blocksInTransit) && mempool == old(mempool) && effects == old(effects)
    {
      knownNodes := knownNodes - {addr};
    }

    /** `handle_addr`: every advertised address joins the registry. */
    method HandleAddr(nodes: seq<string>)
      modifies this
      ensures knownNodes == old(knownNodes) + Advertised(nodes)
      ensures blocksInTransit == old(blocksInTransit) && mempool == old(mempool) && effects == old(effects)
    {
      for i := 0 to |nodes|
        invariant knownNodes == old(knownNodes) + Advertised(nodes[..i])
        invariant blocksInTransit == old(blocksInTransit) && mempool == old(mempool) && effects == old(effects)
      {
        assert Advertised(nodes[..i + 1]) == Advertised(nodes[..i]) + {nodes[i]} by {
          assert nodes[..i + 1] == nodes[..i] + [nodes[i]];
        }
        AddNodes(nodes[i]);
      }
      assert nodes[..|nodes|] == nodes;
    }

    /** `send_data`: nothing to the node itself; a peer that refuses the
        connection is removed from the registry, and the call still
        succeeds. */
    method SendData(addr: string, msg: Message, reachable: bool)
      modifies this
      ensures knownNodes == AfterSend(old(knownNodes), nodeAddress, addr, reachable)
      ensures effects == old(effects) + Delivery(nodeAddress, addr, msg, reachable)
      ensures blocksInTransit == old(blocksInTransit) && mempool == old(mempool)
    {
      if addr == nodeAddress {
        return;
      }
      if !reachable {
        RemoveNode(addr);
        return;
      }
      effects := effects + [Sent(addr, msg)];
    }

    /** `send_get_data`: asks `addr` for the item `id` of kind `kind`. */
    method SendGetData(addr: string, kind: string, id: string, reachable: bool)
      modifies this
      ensures knownNodes == AfterSend(old(knownNodes), nodeAddress, addr, reachable)
      ensures effects == old(effects) + Delivery(nodeAddress, addr, GetData(GetDatamsg(nodeAddress, kind, id)), reachable)
      ensures blocksInTransit == old(blocksInTransit) && mempool == old(mempool)
    {
      var data := GetDatamsg(nodeAddress, kind, id);
      SendData(addr, GetData(data), reachable);
    }

    /** `handle_block`: the block goes to `add_block`; then either the head
        of the in-transit queue is requested from the sender and dropped
        from the queue, or, with nothing in transit, the UTXO set is
        reindexed. */
    method HandleBlock(msg: Blockmsg, reachable: bool)
      modifies this
      ensures old(blocksInTransit) != [] ==>
                blocksInTransit == old(blocksInTransit)[1..]
                && knownNodes == AfterSend(old(knownNodes), nodeAddress, msg.addrFrom, reachable)
                && effects == old(effects) + [AddBlockCall(msg.block)]
                              + Delivery(nodeAddress, msg.addrFrom,
                                         GetData(GetDatamsg(nodeAddress, "block", old(blocksInTransit)[0])), reachable)
      ensures old(blocksInTransit) == [] ==>
                blocksInTransit == [] && knownNodes == old(knownNodes)
                && effects == old(effects) + [AddBlockCall(msg.block), ReindexCall]
      ensures mempool == old(mempool)
    {
      effects := effects + [AddBlockCall(msg.block)];
      var inTransit := blocksInTransit;
      if |inTransit| > 0 {
        var blockHash := inTransit[0];
        SendGetData(msg.addrFrom, "block", blockHash, reachable);
        inTransit := inTransit[1..];
        blocksInTransit := inTransit;
      } else {
        effects := effects + [ReindexCall];
      }
    }

    /** The `match` of `handle_connection`: `addr` and `block` are handled
        here, the other five go to handlers outside the model. */
    method HandleMessage(msg: Message, reachable: bool)
      modifies this
      ensures View() == Handled(old(View()), nodeAddress, msg, reachable)
      ensures mempool == old(mempool)
    {
      match msg
      case Addr(nodes) => HandleAddr(nodes);
      case Block(data) => HandleBlock(data, reachable);
      case _ => effects := effects + [HandlerCall(msg)];
    }

    /** `handle_connection` after `read_to_end`: a request that does not
        decode is an error and changes nothing. */
    method HandleConnection(buffer: Bytes, dec: Decoders, reachable: bool) returns (r: Outcome)
      requires |buffer| >= CmdLen
      modifies this
      ensures var m := Dispatch(StripZeros(buffer[..CmdLen]), buffer[CmdLen..], dec);
              (m.Err? ==> r == Fail(m.error) && knownNodes == old(knownNodes) && effects == old(effects)
                          && blocksInTransit == old(blocksInTransit))
              && (m.Ok? ==> r == Pass && View() == Handled(old(View()), nodeAddress, m.value, reachable))
      ensures mempool == old(mempool)
    {
      var cmd := BytesToCmd(buffer, dec);
      if cmd.Err? {
        return Fail(cmd.error);
      }
      HandleMessage(cmd.value, reachable);
      return Pass;
    }
  }
}
