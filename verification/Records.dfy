/** What a dump lists in terms of what the kernel sent: which groups a record carries, who
    owns its socket, and where a dump ends. */
module Records {
  import opened Types
  import opened Owners
  import opened Netlink
  import opened Dump

  /** `c` is the record of the message `r` with the attributes `attrs`: it carries the two
      groups every record has, the types received, and group 24 if its owner is known. */
  ghost predicate IsRecord(c: Conn, asked: bool, owners: map<nat, Owner>, r: DiagMsg, attrs: seq<Attr>)
  {
    var known := asked && r.inode in owners;
    && c.r == r && c.attrs == attrs
    && (forall k: nat :: k in c.ext <==> k == 0 || k == 23 || HasKind(attrs, k) || (k == 24 && known))
    && (if known then c.pid == owners[r.inode].pid && c.comm == owners[r.inode].comm else c.pid == 0 && c.comm == "")
  }

  predicate HasKind(attrs: seq<Attr>, k: nat)
  {
    exists i :: 0 <= i < |attrs| && attrs[i].kind == k
  }

  /** A record on its way: message, attributes, and the padding behind each. */
  datatype Sent = Sent(r: DiagMsg, attrs: seq<Attr>, pads: seq<seq<Byte>>)

  predicate GoodSent(s: Sent)
  {
    GoodAttrs(s.attrs, s.pads)
  }

  predicate Supported(s: Sent)
  {
    forall i | 0 <= i < |s.attrs| :: s.attrs[i].kind < 23
  }

  function MsgOf(s: Sent): (m: Msg)
    requires GoodSent(s)
  {
    Diag(s.r, EncodeAttrs(s.attrs, s.pads))
  }

  lemma {:induction false} RecordIsRecord(req: Request, owners: map<nat, Owner>, r: DiagMsg, attrs: seq<Attr>)
    ensures IsRecord(ConnOf(req, owners, r, attrs), 24 in req.extReq, owners, r, attrs)
  {
    forall k: nat ensures k in KindsOf(attrs) <==> HasKind(attrs, k) {
    }
  }

  lemma {:induction false} PayloadReads(s: Sent)
    requires GoodSent(s)
    ensures var payload := EncodeAttrs(s.attrs, s.pads); IsAttrStream(payload, 0) && AttrsFrom(payload, 0) == s.attrs
  {
    EncodeThenRead([], s.attrs, s.pads);
    assert [] + EncodeAttrs(s.attrs, s.pads) == EncodeAttrs(s.attrs, s.pads);
  }

  /** A message adds the record of what was sent, or ends the dump when an attribute has a
      type that is not supported. */
  lemma {:induction false} MessageAddsRecord(req: Request, owners: map<nat, Owner>, s: Sent, conns: seq<Conn>)
    requires GoodSent(s)
    ensures GoodMsg(MsgOf(s))
    ensures var p := TakeMsg(req, owners, MsgOf(s), conns);
            if Supported(s) then
              p.end == More && |p.conns| == |conns| + 1 && p.conns[..|conns|] == conns
              && IsRecord(p.conns[|conns|], 24 in req.extReq, owners, s.r, s.attrs)
            else p == Progress(conns, Failed)
  {
    PayloadReads(s);
    RecordIsRecord(req, owners, s.r, s.attrs);
  }

  /** The records of everything sent, in order. */
  ghost predicate AreRecords(cs: seq<Conn>, asked: bool, owners: map<nat, Owner>, sent: seq<Sent>)
  {
    |cs| == |sent| && forall i | 0 <= i < |sent| :: IsRecord(cs[i], asked, owners, sent[i].r, sent[i].attrs)
  }

  lemma {:induction false} MoreRecords(c: Conn, more: seq<Conn>, asked: bool, owners: map<nat, Owner>, sent: seq<Sent>)
    requires sent != [] && IsRecord(c, asked, owners, sent[0].r, sent[0].attrs) && AreRecords(more, asked, owners, sent[1..])
    ensures AreRecords([c] + more, asked, owners, sent)
  {
    forall i | 0 <= i < |sent| ensures IsRecord(([c] + more)[i], asked, owners, sent[i].r, sent[i].attrs) {
      if i > 0 {
        assert sent[i] == sent[1..][i - 1];
      }
    }
  }

  lemma {:induction false} RecordsJoin(a: seq<Conn>, b: seq<Conn>, asked: bool, owners: map<nat, Owner>, s: seq<Sent>, t: seq<Sent>)
    requires AreRecords(a, asked, owners, s) && AreRecords(b, asked, owners, t)
    ensures AreRecords(a + b, asked, owners, s + t)
  {
  }

  predicate GoodBatch(sent: seq<Sent>)
  {
    forall i | 0 <= i < |sent| :: GoodSent(sent[i]) && Supported(sent[i])
  }

  function Msgs(sent: seq<Sent>): (msgs: seq<Msg>)
    requires forall i | 0 <= i < |sent| :: GoodSent(sent[i])
    ensures |msgs| == |sent|
  {
    if sent == [] then [] else [MsgOf(sent[0])] + Msgs(sent[1..])
  }

  lemma {:induction false} MsgsGood(sent: seq<Sent>)
    requires forall i | 0 <= i < |sent| :: GoodSent(sent[i])
    ensures forall i | 0 <= i < |sent| :: GoodMsg(Msgs(sent)[i])
  {
    if sent != [] {
      MessageAddsRecord(Request(None, false, {}), map[], sent[0], []);
      MsgsGood(sent[1..]);
    }
  }

  lemma {:induction false} OneMessage(req: Request, owners: map<nat, Owner>, m: Msg, rest: seq<Msg>, conns: seq<Conn>, next: seq<Conn>)
    requires GoodMsg(m) && forall i | 0 <= i < |rest| :: GoodMsg(rest[i])
    requires TakeMsg(req, owners, m, conns) == Progress(next, More)
    ensures forall i | 0 <= i < |[m] + rest| :: GoodMsg(([m] + rest)[i])
    ensures TakeMsgs(req, owners, [m] + rest, conns) == TakeMsgs(req, owners, rest, next)
  {
    assert ([m] + rest)[0] == m && ([m] + rest)[1..] == rest;
  }

  /** A supported record in front of other messages. */
  lemma {:induction false} OneRecord(req: Request, owners: map<nat, Owner>, s: Sent, rest: seq<Msg>, conns: seq<Conn>) returns (c: Conn)
    requires GoodSent(s) && Supported(s) && forall i | 0 <= i < |rest| :: GoodMsg(rest[i])
    ensures IsRecord(c, 24 in req.extReq, owners, s.r, s.attrs)
    ensures forall i | 0 <= i < |[MsgOf(s)] + rest| :: GoodMsg(([MsgOf(s)] + rest)[i])
    ensures TakeMsgs(req, owners, [MsgOf(s)] + rest, conns) == TakeMsgs(req, owners, rest, conns + [c])
  {
    MessageAddsRecord(req, owners, s, conns);
    var p := TakeMsg(req, owners, MsgOf(s), conns);
    c := p.conns[|conns|];
    assert p.conns == conns + [c];
    OneMessage(req, owners, MsgOf(s), rest, conns, conns + [c]);
  }

  lemma {:induction false} MsgsThen(sent: seq<Sent>, last: seq<Msg>)
    requires forall i | 0 <= i < |sent| :: GoodSent(sent[i])
    requires forall i | 0 <= i < |last| :: GoodMsg(last[i])
    ensures forall i | 0 <= i < |Msgs(sent) + last| :: GoodMsg((Msgs(sent) + last)[i])
    ensures sent == [] ==> Msgs(sent) + last == last
    ensures sent != [] ==> Msgs(sent) + last == [MsgOf(sent[0])] + (Msgs(sent[1..]) + last)
  {
    MsgsGood(sent);
  }

  /** One record in front of a batch whose records are `more`. */
  lemma {:induction false} ThenBatch(req: Request, owners: map<nat, Owner>, sent: seq<Sent>, last: seq<Msg>, conns: seq<Conn>, c: Conn, more: seq<Conn>)
    requires sent != [] && GoodBatch(sent) && forall i | 0 <= i < |last| :: GoodMsg(last[i])
    requires forall i | 0 <= i < |Msgs(sent) + last| :: GoodMsg((Msgs(sent) + last)[i])
    requires forall i | 0 <= i < |Msgs(sent[1..]) + last| :: GoodMsg((Msgs(sent[1..]) + last)[i])
    requires TakeMsgs(req, owners, Msgs(sent) + last, conns) == TakeMsgs(req, owners, Msgs(sent[1..]) + last, conns + [c])
    requires TakeMsgs(req, owners, Msgs(sent[1..]) + last, conns + [c]) == TakeMsgs(req, owners, last, (conns + [c]) + more)
    ensures TakeMsgs(req, owners, Msgs(sent) + last, conns) == TakeMsgs(req, owners, last, conns + ([c] + more))
  {
    assert (conns + [c]) + more == conns + ([c] + more);
  }

  /** Supported records are all taken; what follows them decides how the datagram ends. */
  lemma {:induction false} DatagramAddsRecords(req: Request, owners: map<nat, Owner>, sent: seq<Sent>, last: seq<Msg>, conns: seq<Conn>)
      returns (added: seq<Conn>)
    requires GoodBatch(sent)
    requires forall i | 0 <= i < |last| :: GoodMsg(last[i])
    ensures AreRecords(added, 24 in req.extReq, owners, sent)
    ensures forall i | 0 <= i < |Msgs(sent) + last| :: GoodMsg((Msgs(sent) + last)[i])
    ensures TakeMsgs(req, owners, Msgs(sent) + last, conns) == TakeMsgs(req, owners, last, conns + added)
  {
    MsgsThen(sent, last);
    if sent == [] {
      added := [];
      assert conns + added == conns;
    } else {
      MsgsThen(sent[1..], last);
      var c := OneRecord(req, owners, sent[0], Msgs(sent[1..]) + last, conns);
      var more := DatagramAddsRecords(req, owners, sent[1..], last, conns + [c]);
      ThenBatch(req, owners, sent, last, conns, c, more);
      MoreRecords(c, more, 24 in req.extReq, owners, sent);
      added := [c] + more;
    }
  }

  lemma {:induction false} BatchAddsRecords(req: Request, owners: map<nat, Owner>, sent: seq<Sent>, conns: seq<Conn>) returns (added: seq<Conn>)
    requires GoodBatch(sent)
    ensures AreRecords(added, 24 in req.extReq, owners, sent) && GoodRecv(Datagram(Msgs(sent)))
    ensures TakeRecv(req, owners, Datagram(Msgs(sent)), conns) == Progress(conns + added, More)
  {
    added := DatagramAddsRecords(req, owners, sent, [], conns);
    assert Msgs(sent) + [] == Msgs(sent);
  }

  /** Everything sent in several datagrams. */
  function Joined(batches: seq<seq<Sent>>): (sent: seq<Sent>)
  {
    if batches == [] then [] else batches[0] + Joined(batches[1..])
  }

  ghost predicate GoodBatches(batches: seq<seq<Sent>>)
  {
    forall i | 0 <= i < |batches| :: GoodBatch(batches[i])
  }

  /** One datagram for each batch, then one that begins with `last`. */
  ghost predicate Brings(recvs: seq<Recv>, batches: seq<seq<Sent>>, last: Recv)
    requires GoodBatches(batches)
  {
    && |recvs| > |batches| && recvs[|batches|] == last
    && forall i | 0 <= i < |batches| :: recvs[i] == Datagram(Msgs(batches[i]))
  }

  /** How a dump ends that is told `last` behind supported records. */
  function EndOf(last: Recv): (end: End)
  {
    match last
    case RecvFailed => Failed
    case Datagram(msgs) =>
      if msgs == [] then More else match msgs[0] case Done => Finished case Error => Failed case Diag(_, _) => More
  }

  /** A dump that is told it is done, or that something is wrong, has the records of all
      that was sent before, in order, and succeeds only when it is told it is done. */
  lemma {:induction false} DumpHasRecords(req: Request, owners: map<nat, Owner>, recvs: seq<Recv>, batches: seq<seq<Sent>>, last: Recv, conns: seq<Conn>)
      returns (added: seq<Conn>)
    requires GoodBatches(batches) && Brings(recvs, batches, last) && !EndOf(last).More?
    requires forall i | 0 <= i < |recvs| :: GoodRecv(recvs[i])
    ensures AreRecords(added, 24 in req.extReq, owners, Joined(batches))
    ensures TakeAll(req, owners, recvs, conns) == Progress(conns + added, EndOf(last))
  {
    if batches == [] {
      added := [];
      assert conns + added == conns && recvs[0] == last;
    } else {
      var some := BatchAddsRecords(req, owners, batches[0], conns);
      assert recvs[0] == Datagram(Msgs(batches[0]));
      var more := DumpHasRecords(req, owners, recvs[1..], batches[1..], last, conns + some);
      added := some + more;
      assert (conns + some) + more == conns + added;
      RecordsJoin(some, more, 24 in req.extReq, owners, batches[0], Joined(batches[1..]));
    }
  }

  /** A group is recorded after such a dump exactly when every record has it, some record
      was sent with it, or it is that of owners and the owner of some record is known. */
  lemma {:induction false} DumpRecordsGroups(asked: bool, owners: map<nat, Owner>, sent: seq<Sent>, conns: seq<Conn>, k: nat)
    requires AreRecords(conns, asked, owners, sent)
    ensures k in ExtOf(conns)
       <==> k == 0 || k == 23 || (exists i :: 0 <= i < |sent| && HasKind(sent[i].attrs, k))
            || (k == 24 && asked && exists i :: 0 <= i < |sent| && sent[i].r.inode in owners)
  {
    ExtOfMembers(conns, k);
    if i :| 0 <= i < |conns| && k in conns[i].ext {
      assert IsRecord(conns[i], asked, owners, sent[i].r, sent[i].attrs);
      assert k == 0 || k == 23 || HasKind(sent[i].attrs, k) || (k == 24 && asked && sent[i].r.inode in owners);
    }
    if i :| 0 <= i < |sent| && (HasKind(sent[i].attrs, k) || (k == 24 && asked && sent[i].r.inode in owners)) {
      assert IsRecord(conns[i], asked, owners, sent[i].r, sent[i].attrs);
      assert k in conns[i].ext;
    }
  }

  // ----- who owns a socket

  lemma {:induction false} EarlierPairsWin(a: seq<(nat, Owner)>, b: seq<(nat, Owner)>, inode: nat)
    ensures inode in OwnersFrom(a) ==> inode in OwnersFrom(a + b) && OwnersFrom(a + b)[inode] == OwnersFrom(a)[inode]
    ensures inode !in OwnersFrom(a) ==>
              (inode in OwnersFrom(a + b) <==> inode in OwnersFrom(b))
              && (inode in OwnersFrom(b) ==> OwnersFrom(a + b)[inode] == OwnersFrom(b)[inode])
  {
    if b == [] {
      assert a + b == a;
    } else {
      var n := |b| - 1;
      assert (a + b)[..|a + b| - 1] == a + b[..n];
      EarlierPairsWin(a, b[..n], inode);
    }
  }

  lemma {:induction false} OwnSockets(p: Proc, inode: nat)
    requires p.comm.Some?
    ensures inode in OwnersFrom(SocketsOf(p)) <==> inode != 0 && inode in p.inodes
    ensures inode in OwnersFrom(SocketsOf(p)) ==> OwnersFrom(SocketsOf(p))[inode] == Owner(p.pid, p.comm.value)
  {
    var pairs := SocketsOf(p);
    FirstPairWins(pairs, inode);
    if inode != 0 && inode in p.inodes {
      var i := FirstIndex(p.inodes, inode);
      assert pairs[i].0 == inode;
      assert forall j | 0 <= j < i :: pairs[j].0 == p.inodes[j];
    }
    forall i | 0 <= i < |pairs| ensures pairs[i].0 == p.inodes[i] {
    }
  }

  lemma {:induction false} FirstIndex(s: seq<nat>, x: nat) returns (i: nat)
    requires x in s
    ensures i < |s| && s[i] == x && forall j | 0 <= j < i :: s[j] != x
  {
    i := 0;
    if s[0] != x {
      var k := FirstIndex(s[1..], x);
      i := k + 1;
    }
  }

  /** A socket belongs to the first process that has it open. */
  lemma {:induction false} FirstProcessOwns(procs: seq<Proc>, p: nat, inode: nat)
    requires p < |procs| && forall i | 0 <= i <= p :: procs[i].comm.Some?
    requires inode != 0 && inode in procs[p].inodes && forall i | 0 <= i < p :: inode !in procs[i].inodes
    ensures inode in OwnersFrom(AllSockets(procs))
    ensures OwnersFrom(AllSockets(procs))[inode] == Owner(procs[p].pid, procs[p].comm.value)
  {
    OwnSockets(procs[0], inode);
    EarlierPairsWin(SocketsOf(procs[0]), AllSockets(procs[1..]), inode);
    if p > 0 {
      FirstProcessOwns(procs[1..], p - 1, inode);
    }
  }

  /** Inode 0, and one that no process has open, belongs to nobody. */
  lemma {:induction false} NobodyOwns(procs: seq<Proc>, inode: nat)
    requires inode == 0 || forall i | 0 <= i < |procs| :: inode !in procs[i].inodes
    ensures inode !in OwnersFrom(AllSockets(procs))
  {
    if procs != [] && procs[0].comm.Some? {
      OwnSockets(procs[0], inode);
      NobodyOwns(procs[1..], inode);
      EarlierPairsWin(SocketsOf(procs[0]), AllSockets(procs[1..]), inode);
    }
  }
}
