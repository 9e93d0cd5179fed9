/** Filling the connection list: one record per diagnostic message, a whole dump as
    a loop over received messages, and the owner table built before it. */
module Dump {
  import opened Types
  import opened StableSort
  import opened Comparators
  import opened SortedLists
  import opened ConnRing
  import opened Owners
  import opened Netlink

  const BASE_EXT: set<nat> := {INET_DIAG_NONE, INET_DIAG_ADDRESS}

  /** What the list is sorted by and what is asked for: fixed during a dump. */
  datatype Request = Request(sortKey: Option<Field>, ascending: bool, extReq: set<nat>)

  datatype Msg =
    | Done
    | Error
    | Diag(r: DiagMsg, payload: seq<Byte>)

  predicate GoodMsg(m: Msg)
  {
    m.Diag? ==> IsAttrStream(m.payload, 0)
  }

  predicate FoundOwner(req: Request, owners: map<nat, Owner>, r: DiagMsg)
  {
    INET_DIAG_PROC in req.extReq && r.inode in owners
  }

  /** The record made from a message: its attribute set holds the base groups, exactly
      the attribute types received, and the owner group if an owner was found. */
  function ConnOf(req: Request, owners: map<nat, Owner>, r: DiagMsg, attrs: seq<Attr>): (c: Conn)
  {
    var found := FoundOwner(req, owners, r);
    Conn(r, attrs, BASE_EXT + KindsOf(attrs) + (if found then {INET_DIAG_PROC} else {}),
         if found then owners[r.inode].pid else 0, if found then owners[r.inode].comm else "")
  }

  function OrderOf(req: Request): (lt: (Conn, Conn) -> bool)
  {
    ListOrder(req.sortKey, req.ascending)
  }

  /** The list as a dump finds and leaves it. */
  ghost predicate ListReady(list: ConnList)
    reads list, list.head, list.nodes
  {
    list.Valid() && list.Counted() && list.NoLeak()
  }

  /** One record has been allocated and is not linked yet. */
  ghost predicate ListHolds(list: ConnList, ci: Link)
    reads list, list.head, list.nodes
  {
    list.Valid() && list.Counted() && ci in list.live && ci !in list.nodes && ci != list.head
    && forall n | n in list.live :: n in list.nodes || n == ci
  }

  /** Fills an allocated record, links it and counts it. */
  method LinkRecord(list: ConnList, req: Request, ci: Link, c: Conn)
    requires ListHolds(list, ci) && KeyUsable(req.sortKey, list.Conns(), c)
    modifies list, list.head, list.nodes, ci
    ensures ListReady(list) && list.Conns() == Inserted(OrderOf(req), old(list.Conns()), c)
    ensures forall n | n in list.nodes :: n in old(list.nodes) || n == ci
  {
    ghost var cs := list.Conns();
    ci.info := Some(c);
    assert list.Conns() == cs;
    list.AddConnInfo(ci, req.sortKey, req.ascending);
    list.nrConns := list.nrConns + 1;
  }

  /** Frees an allocated record that is not linked. */
  method DropRecord(list: ConnList, ci: Link)
    requires ListHolds(list, ci)
    modifies list`live
    ensures ListReady(list) && list.nodes == old(list.nodes) && list.Conns() == old(list.Conns())
  {
    list.Free(ci);
  }

  /** Allocates a record. */
  method NewRecord(list: ConnList) returns (ci: Link)
    requires ListReady(list)
    modifies list`live
    ensures fresh(ci) && ListHolds(list, ci) && list.nodes == old(list.nodes) && list.Conns() == old(list.Conns())
  {
    ci := list.Alloc();
  }

  method FindOwner(table: OwnerTable, req: Request, r: DiagMsg) returns (found: bool, owner: Owner)
    requires table.Valid()
    ensures found == FoundOwner(req, table.Map(), r)
    ensures found ==> owner == table.Map()[r.inode]
  {
    found, owner := false, Owner(0, "");
    if INET_DIAG_PROC in req.extReq {
      found, owner := table.Lookup(r.inode);
    }
  }

  /** What a record is filled with: the owner if one is known, and the attributes. */
  method ReadRecord(table: OwnerTable, req: Request, r: DiagMsg, payload: seq<Byte>) returns (err: bool, c: Conn)
    requires table.Valid() && IsAttrStream(payload, 0)
    ensures err <==> !AllSupported(AttrsFrom(payload, 0))
    ensures !err ==> c == ConnOf(req, table.Map(), r, AttrsFrom(payload, 0))
  {
    var found, owner := FindOwner(table, req, r);
    var attrs, types;
    err, attrs, types := WalkAttrs(payload);
    var ext := BASE_EXT + types + if found then {INET_DIAG_PROC} else {};
    c := Conn(r, attrs, ext, if found then owner.pid else 0, if found then owner.comm else "");
  }

  /** Adds one message's connection, or nothing if it has an unsupported attribute. */
  method DiagDump(list: ConnList, table: OwnerTable, req: Request, m: Msg, extRcv: set<nat>) returns (err: bool, extRcv': set<nat>)
    requires ListReady(list) && table.Valid() && m.Diag? && GoodMsg(m)
    requires var attrs := AttrsFrom(m.payload, 0);
             AllSupported(attrs) ==> KeyUsable(req.sortKey, list.Conns(), ConnOf(req, table.Map(), m.r, attrs))
    modifies list, list.head, list.nodes
    ensures ListReady(list) && table.Valid()
    ensures forall n | n in list.nodes :: n in old(list.nodes) || fresh(n)
    ensures err <==> !AllSupported(AttrsFrom(m.payload, 0))
    ensures err ==> extRcv' == extRcv && list.Conns() == old(list.Conns())
    ensures !err ==>
              var c := ConnOf(req, table.Map(), m.r, AttrsFrom(m.payload, 0));
              extRcv' == extRcv + c.ext && list.Conns() == Inserted(OrderOf(req), old(list.Conns()), c)
  {
    ghost var was, valid := list.nodes, table.Valid();
    var ci := NewRecord(list);
    var c;
    err, c := ReadRecord(table, req, m.r, m.payload);
    if !err {
      extRcv' := extRcv + c.ext;
      LinkRecord(list, req, ci, c);
    } else {
      extRcv' := extRcv;
      DropRecord(list, ci);
    }
    assert table.Valid() == valid && forall n | n in list.nodes :: n in was || n == ci;
  }

  // ----- a whole dump

  datatype End = More | Finished | Failed

  /** The connections taken in so far, and whether the dump goes on. */
  datatype Progress = Progress(conns: seq<Conn>, end: End)

  /** One receive call: it fails, or brings a datagram of messages. */
  datatype Recv = RecvFailed | Datagram(msgs: seq<Msg>)

  predicate GoodRecv(rcv: Recv)
  {
    rcv.Datagram? ==> forall i | 0 <= i < |rcv.msgs| :: GoodMsg(rcv.msgs[i])
  }

  function TakeMsg(req: Request, owners: map<nat, Owner>, m: Msg, conns: seq<Conn>): (p: Progress)
    requires GoodMsg(m)
  {
    match m
    case Done => Progress(conns, Finished)
    case Error => Progress(conns, Failed)
    case Diag(r, payload) =>
      var attrs := AttrsFrom(payload, 0);
      if AllSupported(attrs) then Progress(conns + [ConnOf(req, owners, r, attrs)], More) else Progress(conns, Failed)
  }

  function TakeMsgs(req: Request, owners: map<nat, Owner>, msgs: seq<Msg>, conns: seq<Conn>): (p: Progress)
    requires forall i | 0 <= i < |msgs| :: GoodMsg(msgs[i])
  {
    if msgs == [] then Progress(conns, More)
    else
      var p := TakeMsg(req, owners, msgs[0], conns);
      if p.end.More? then TakeMsgs(req, owners, msgs[1..], p.conns) else p
  }

  function TakeRecv(req: Request, owners: map<nat, Owner>, rcv: Recv, conns: seq<Conn>): (p: Progress)
    requires GoodRecv(rcv)
  {
    if rcv.RecvFailed? then Progress(conns, Failed) else TakeMsgs(req, owners, rcv.msgs, conns)
  }

  /** What a dump takes in. An answer that just stops is treated as a failed receive. */
  function TakeAll(req: Request, owners: map<nat, Owner>, recvs: seq<Recv>, conns: seq<Conn>): (p: Progress)
    requires forall i | 0 <= i < |recvs| :: GoodRecv(recvs[i])
    ensures !p.end.More?
  {
    if recvs == [] then Progress(conns, Failed)
    else
      var p := TakeRecv(req, owners, recvs[0], conns);
      if p.end.More? then TakeAll(req, owners, recvs[1..], p.conns) else p
  }

  lemma {:induction false} TakeMsgsExtends(req: Request, owners: map<nat, Owner>, msgs: seq<Msg>, conns: seq<Conn>)
    requires forall i | 0 <= i < |msgs| :: GoodMsg(msgs[i])
    ensures conns <= TakeMsgs(req, owners, msgs, conns).conns
  {
    if msgs != [] {
      var p := TakeMsg(req, owners, msgs[0], conns);
      if p.end.More? {
        TakeMsgsExtends(req, owners, msgs[1..], p.conns);
      }
    }
  }

  lemma {:induction false} TakeAllExtends(req: Request, owners: map<nat, Owner>, recvs: seq<Recv>, conns: seq<Conn>)
    requires forall i | 0 <= i < |recvs| :: GoodRecv(recvs[i])
    ensures conns <= TakeAll(req, owners, recvs, conns).conns
  {
    if recvs != [] {
      var p := TakeRecv(req, owners, recvs[0], conns);
      if recvs[0].Datagram? {
        TakeMsgsExtends(req, owners, recvs[0].msgs, conns);
      }
      if p.end.More? {
        TakeAllExtends(req, owners, recvs[1..], p.conns);
      }
    }
  }

  // ----- when the list is sorted, and when sorting it would call no comparator

  /** Each arrival finds a comparator for the comparisons with those before it. */
  ghost predicate KeyFits(key: Option<Field>, conns: seq<Conn>)
  {
    conns == [] || (KeyFits(key, conns[..|conns| - 1]) && KeyUsable(key, conns[..|conns| - 1], conns[|conns| - 1]))
  }

  lemma {:induction false} KeyFitsPrefix(key: Option<Field>, a: seq<Conn>, b: seq<Conn>)
    requires KeyFits(key, b) && a <= b
    ensures KeyFits(key, a)
  {
    if a != b {
      KeyFitsPrefix(key, a, b[..|b| - 1]);
    }
  }

  /** Two connections that must be compared carry the group of a heading, which has
      no comparator. */
  predicate ComparesHeading(key: Field, conns: seq<Conn>)
  {
    !key.drawable
    && exists i, j :: 0 <= i < j < |conns| && key.extRcv in conns[i].ext && key.extRcv in conns[j].ext
  }

  lemma {:induction false} HeadingNext(key: Field, front: seq<Conn>, c: Conn)
    ensures ComparesHeading(key, front + [c])
       <==> ComparesHeading(key, front) || (!key.drawable && key.extRcv in c.ext && exists x :: x in front && key.extRcv in x.ext)
  {
    var conns, n := front + [c], |front|;
    if i, j :| !key.drawable && 0 <= i < j < n && key.extRcv in front[i].ext && key.extRcv in front[j].ext {
      assert key.extRcv in conns[i].ext && key.extRcv in conns[j].ext;
    }
    if x :| !key.drawable && key.extRcv in c.ext && x in front && key.extRcv in x.ext {
      var i :| 0 <= i < n && front[i] == x;
      assert key.extRcv in conns[i].ext && key.extRcv in conns[n].ext;
    }
    if i, j :| !key.drawable && 0 <= i < j < |conns| && key.extRcv in conns[i].ext && key.extRcv in conns[j].ext {
      assert conns[i] in front && key.extRcv in front[i].ext;
      assert j < n ==> key.extRcv in front[j].ext;
    }
  }

  /** A missing comparator is called for exactly when two arrivals carry its group. */
  lemma {:induction false} KeyFitsExactly(key: Field, conns: seq<Conn>)
    requires forall c | c in conns :: ReadsCString(key, c)
    ensures KeyFits(Some(key), conns) <==> !ComparesHeading(key, conns)
  {
    if conns != [] {
      var front, c := conns[..|conns| - 1], conns[|conns| - 1];
      assert conns == front + [c] && c in conns && forall x | x in front :: x in conns;
      KeyFitsExactly(key, front);
      HeadingNext(key, front, c);
    }
  }

  /** The progress made message by message, up to the last one that is looked at. */
  lemma {:induction false} DatagramSteps(req: Request, owners: map<nat, Owner>, msgs: seq<Msg>, conns: seq<Conn>)
      returns (ps: seq<Progress>)
    requires forall j | 0 <= j < |msgs| :: GoodMsg(msgs[j])
    requires KeyFits(req.sortKey, TakeMsgs(req, owners, msgs, conns).conns)
    ensures 0 < |ps| <= |msgs| + 1 && ps[0] == Progress(conns, More) && ps[|ps| - 1] == TakeMsgs(req, owners, msgs, conns)
    ensures |ps| <= |msgs| ==> !ps[|ps| - 1].end.More?
    ensures forall i | 0 <= i < |ps| - 1 :: IsStep(req, owners, msgs[i], ps[i], ps[i + 1])
  {
    if msgs == [] {
      ps := [Progress(conns, More)];
    } else {
      var p := TakeMsg(req, owners, msgs[0], conns);
      if p.end.More? {
        TakeMsgsExtends(req, owners, msgs[1..], p.conns);
        KeyFitsPrefix(req.sortKey, p.conns, TakeMsgs(req, owners, msgs, conns).conns);
        var later := DatagramSteps(req, owners, msgs[1..], p.conns);
        ps := [Progress(conns, More)] + later;
        forall i | 0 <= i < |ps| - 1 ensures IsStep(req, owners, msgs[i], ps[i], ps[i + 1]) {
          if i > 0 {
            assert IsStep(req, owners, msgs[1..][i - 1], later[i - 1], later[i]);
          }
        }
      } else {
        ps := [Progress(conns, More), p];
      }
    }
  }

  /** One message takes `p` to `q`, and its connection can be sorted in. */
  ghost predicate IsStep(req: Request, owners: map<nat, Owner>, m: Msg, p: Progress, q: Progress)
  {
    GoodMsg(m) && p.end.More? && q == TakeMsg(req, owners, m, p.conns) && KeyFits(req.sortKey, q.conns)
  }

  /** The progress made receive by receive, up to the last one that is looked at. */
  lemma {:induction false} DumpSteps(req: Request, owners: map<nat, Owner>, recvs: seq<Recv>, conns: seq<Conn>)
      returns (ps: seq<Progress>)
    requires forall j | 0 <= j < |recvs| :: GoodRecv(recvs[j])
    requires KeyFits(req.sortKey, TakeAll(req, owners, recvs, conns).conns)
    ensures 0 < |ps| <= |recvs| + 1 && ps[0] == Progress(conns, More)
    ensures var p := TakeAll(req, owners, recvs, conns);
            ps[|ps| - 1] == if |ps| == |recvs| + 1 && ps[|ps| - 1].end.More? then Progress(p.conns, More) else p
    ensures |ps| <= |recvs| ==> !ps[|ps| - 1].end.More?
    ensures ps[|ps| - 1].end.More? ==> TakeAll(req, owners, recvs, conns).end.Failed?
    ensures forall i | 0 <= i < |ps| - 1 :: IsRecvStep(req, owners, recvs[i], ps[i], ps[i + 1])
  {
    if recvs == [] {
      ps := [Progress(conns, More)];
    } else {
      var p := TakeRecv(req, owners, recvs[0], conns);
      if p.end.More? {
        TakeAllExtends(req, owners, recvs[1..], p.conns);
        KeyFitsPrefix(req.sortKey, p.conns, TakeAll(req, owners, recvs, conns).conns);
        var later := DumpSteps(req, owners, recvs[1..], p.conns);
        ps := [Progress(conns, More)] + later;
        forall i | 0 <= i < |ps| - 1 ensures IsRecvStep(req, owners, recvs[i], ps[i], ps[i + 1]) {
          if i > 0 {
            assert IsRecvStep(req, owners, recvs[1..][i - 1], later[i - 1], later[i]);
          }
        }
      } else {
        ps := [Progress(conns, More), p];
      }
    }
  }

  ghost predicate IsRecvStep(req: Request, owners: map<nat, Owner>, rcv: Recv, p: Progress, q: Progress)
  {
    GoodRecv(rcv) && p.end.More? && q == TakeRecv(req, owners, rcv, p.conns) && KeyFits(req.sortKey, q.conns)
  }

  lemma {:induction false} ArriveMembers(lt: (Conn, Conn) -> bool, cs: seq<Conn>, c: Conn)
    ensures c in Arrive(lt, cs) <==> c in cs
  {
    if cs != [] {
      var front, last := cs[..|cs| - 1], cs[|cs| - 1];
      ArriveMembers(lt, front, c);
      InsertKeepsMembers(lt, Arrive(lt, front), last);
      assert cs == front + [last];
    }
  }

  lemma {:induction false} KeyFitsNext(req: Request, conns: seq<Conn>, c: Conn)
    requires KeyFits(req.sortKey, conns + [c])
    ensures KeyUsable(req.sortKey, Arrive(OrderOf(req), conns), c)
  {
    assert (conns + [c])[..|conns|] == conns;
    forall x | x in Arrive(OrderOf(req), conns) ensures x in conns {
      ArriveMembers(OrderOf(req), conns, x);
    }
  }

  /** Once some entry carries the key's group the first one does. So a new connection
      that carries it is compared, and a heading's missing comparator called, exactly
      when an earlier one carries it too. */
  lemma {:induction false} FirstEntryIsCompared(key: Field, ascending: bool, conns: seq<Conn>)
    ensures var listed := Arrive(ListOrder(Some(key), ascending), conns);
            (listed != [] && key.extRcv in listed[0].ext) <==> exists i :: 0 <= i < |conns| && key.extRcv in conns[i].ext
  {
    var lt := ListOrder(Some(key), ascending);
    var listed := Arrive(lt, conns);
    KeylessComeLast(key, ascending, conns);
    var carrying, lacking := WithKey(key, true, conns), WithKey(key, false, conns);
    if listed != [] {
      ArriveMembers(lt, conns, listed[0]);
      assert listed[0] in listed;
    }
    if i :| 0 <= i < |conns| && key.extRcv in conns[i].ext {
      ArriveMembers(lt, conns, conns[i]);
      var c := conns[i];
      assert c in Arrive(lt, carrying) + lacking && c !in lacking;
      var first := Arrive(lt, carrying)[0];
      ArriveMembers(lt, carrying, first);
      assert listed[0] == first;
    }
  }

  /** Connections of one family are stably sorted in `listed`, by the values of the key;
      without a key they are in arrival order. */
  ghost predicate StablySorted(req: Request, conns: seq<Conn>, listed: seq<Conn>)
  {
    && (forall family | Within(conns, Sortable(req.sortKey, family)) :: IsStableSort(OrderOf(req), conns, listed))
    && match req.sortKey
       case None => listed == conns
       case Some(key) => forall family | OneFamily(key, family, conns) :: SortedBy(key, req.ascending, family, conns, listed)
  }

  /** One insertion after the other sorts a one-family dump stably. */
  lemma {:induction false} ArrivalsAreSorted(req: Request, conns: seq<Conn>)
    ensures StablySorted(req, conns, Arrive(OrderOf(req), conns))
  {
    forall family | Within(conns, Sortable(req.sortKey, family))
      ensures IsStableSort(OrderOf(req), conns, Arrive(OrderOf(req), conns))
    {
      ListOrderIsStrictWeakOrder(req.sortKey, req.ascending, family);
      ArriveIsTheStableSort(OrderOf(req), Sortable(req.sortKey, family), conns, Arrive(OrderOf(req), conns));
    }
    match req.sortKey
    case None => NoKeyKeepsArrivalOrder(req.ascending, conns);
    case Some(key) =>
      forall family | OneFamily(key, family, conns) ensures SortedBy(key, req.ascending, family, conns, Arrive(OrderOf(req), conns)) {
        ArrivalsAreSortedBy(key, req.ascending, family, conns);
      }
  }

  /** The attribute groups some listed connection carries, and the base groups. */
  function ExtOf(conns: seq<Conn>): (ext: set<nat>)
  {
    if conns == [] then BASE_EXT else ExtOf(conns[..|conns| - 1]) + conns[|conns| - 1].ext
  }

  lemma {:induction false} ExtOfMembers(conns: seq<Conn>, k: nat)
    ensures k in ExtOf(conns) <==> k in BASE_EXT || exists i :: 0 <= i < |conns| && k in conns[i].ext
  {
    if conns != [] {
      ExtOfMembers(conns[..|conns| - 1], k);
    }
  }

  lemma {:induction false} OneMoreConn(req: Request, conns: seq<Conn>, c: Conn)
    ensures Arrive(OrderOf(req), conns + [c]) == Inserted(OrderOf(req), Arrive(OrderOf(req), conns), c)
    ensures ExtOf(conns + [c]) == ExtOf(conns) + c.ext
  {
    assert (conns + [c])[..|conns|] == conns;
  }

  /** The list holds the sorted arrivals `conns`, and their groups are recorded. */
  ghost predicate Holds(list: ConnList, req: Request, conns: seq<Conn>, extRcv: set<nat>)
    reads list, list.head, list.nodes
  {
    ListReady(list) && list.Conns() == Arrive(OrderOf(req), conns) && extRcv == ExtOf(conns)
  }

  /** Handles one message. */
  method ReadMsg(list: ConnList, table: OwnerTable, req: Request, m: Msg, extRcv: set<nat>, ghost conns: seq<Conn>)
      returns (end: End, extRcv': set<nat>)
    requires Holds(list, req, conns, extRcv) && table.Valid() && GoodMsg(m)
    requires KeyFits(req.sortKey, TakeMsg(req, table.Map(), m, conns).conns)
    modifies list, list.head, list.nodes
    ensures table.Valid()
    ensures var p := TakeMsg(req, table.Map(), m, conns); end == p.end && Holds(list, req, p.conns, extRcv')
    ensures forall n | n in list.nodes :: n in old(list.nodes) || fresh(n)
  {
    extRcv' := extRcv;
    match m {
      case Done => end := Finished;
      case Error => end := Failed;
      case Diag(r, payload) =>
        ghost var c := ConnOf(req, table.Map(), r, AttrsFrom(payload, 0));
        OneMoreConn(req, conns, c);
        if AllSupported(AttrsFrom(payload, 0)) {
          KeyFitsNext(req, conns, c);
        }
        var err;
        err, extRcv' := DiagDump(list, table, req, m, extRcv);
        end := if err then Failed else More;
    }
  }

  /** Handles the messages of one datagram. */
  method ReadDatagram(list: ConnList, table: OwnerTable, req: Request, msgs: seq<Msg>, extRcv: set<nat>, ghost conns: seq<Conn>)
      returns (end: End, extRcv': set<nat>)
    requires Holds(list, req, conns, extRcv) && table.Valid()
    requires forall i | 0 <= i < |msgs| :: GoodMsg(msgs[i])
    requires KeyFits(req.sortKey, TakeMsgs(req, table.Map(), msgs, conns).conns)
    modifies list, list.head, list.nodes
    ensures table.Valid()
    ensures var p := TakeMsgs(req, table.Map(), msgs, conns); end == p.end && Holds(list, req, p.conns, extRcv')
    ensures forall n | n in list.nodes :: n in old(list.nodes) || fresh(n)
  {
    extRcv', end := extRcv, More;
    ghost var owners := table.Map();
    ghost var ps := DatagramSteps(req, owners, msgs, conns);
    ghost var was := list.nodes;
    var i := 0;
    while i < |msgs| && end.More?
      invariant 0 <= i < |ps| && end == ps[i].end && Holds(list, req, ps[i].conns, extRcv')
      invariant table.Valid() && table.Map() == owners
      invariant forall n | n in list.nodes :: n in was || fresh(n)
    {
      assert IsStep(req, owners, msgs[i], ps[i], ps[i + 1]);
      end, extRcv' := ReadMsg(list, table, req, msgs[i], extRcv', ps[i].conns);
      i := i + 1;
    }
    assert i < |ps| - 1 ==> IsStep(req, owners, msgs[i], ps[i], ps[i + 1]);
  }

  /** A dump into an empty list: on success it holds the stable sort of everything
      received, and the recorded groups are exactly those the connections carry. */
  method ConnectionsDump(list: ConnList, table: OwnerTable, req: Request, sent: bool, recvs: seq<Recv>, extRcv: set<nat>)
      returns (err: bool, extRcv': set<nat>)
    requires ListReady(list) && list.nodes == [] && table.Valid()
    requires forall i | 0 <= i < |recvs| :: GoodRecv(recvs[i])
    requires sent ==> KeyFits(req.sortKey, TakeAll(req, table.Map(), recvs, []).conns)
    modifies list, list.head, list.nodes
    ensures ListReady(list)
    ensures !sent ==> err && extRcv' == extRcv && list.nodes == []
    ensures sent ==> var p := TakeAll(req, table.Map(), recvs, []);
                     && (err <==> !p.end.Finished?) && Holds(list, req, p.conns, extRcv')
                     && StablySorted(req, p.conns, list.Conns())
    ensures forall n | n in list.nodes :: fresh(n)
  {
    if !sent {
      return true, extRcv;
    }
    var end;
    end, extRcv' := ReceiveAll(list, table, req, recvs);
    ArrivalsAreSorted(req, TakeAll(req, table.Map(), recvs, []).conns);
    err := !end.Finished?;
  }

  /** Handles what one receive call brings. */
  method Receive(list: ConnList, table: OwnerTable, req: Request, rcv: Recv, extRcv: set<nat>, ghost conns: seq<Conn>)
      returns (end: End, extRcv': set<nat>)
    requires Holds(list, req, conns, extRcv) && table.Valid() && GoodRecv(rcv)
    requires KeyFits(req.sortKey, TakeRecv(req, table.Map(), rcv, conns).conns)
    modifies list, list.head, list.nodes
    ensures table.Valid()
    ensures var p := TakeRecv(req, table.Map(), rcv, conns); end == p.end && Holds(list, req, p.conns, extRcv')
    ensures forall n | n in list.nodes :: n in old(list.nodes) || fresh(n)
  {
    if rcv.RecvFailed? {
      return Failed, extRcv;
    }
    end, extRcv' := ReadDatagram(list, table, req, rcv.msgs, extRcv, conns);
  }

  /** Receives until the dump ends or fails. */
  method ReceiveAll(list: ConnList, table: OwnerTable, req: Request, recvs: seq<Recv>)
      returns (end: End, extRcv': set<nat>)
    requires ListReady(list) && list.nodes == [] && table.Valid()
    requires forall i | 0 <= i < |recvs| :: GoodRecv(recvs[i])
    requires KeyFits(req.sortKey, TakeAll(req, table.Map(), recvs, []).conns)
    modifies list, list.head, list.nodes
    ensures var p := TakeAll(req, table.Map(), recvs, []); end == p.end && Holds(list, req, p.conns, extRcv')
    ensures forall n | n in list.nodes :: fresh(n)
  {
    extRcv', end := BASE_EXT, More;
    ghost var owners := table.Map();
    ghost var ps := DumpSteps(req, owners, recvs, []);
    var i := 0;
    while i < |recvs| && end.More?
      invariant 0 <= i < |ps| && end == ps[i].end && Holds(list, req, ps[i].conns, extRcv')
      invariant table.Valid() && table.Map() == owners
      invariant forall n | n in list.nodes :: fresh(n)
    {
      assert IsRecvStep(req, owners, recvs[i], ps[i], ps[i + 1]);
      end, extRcv' := Receive(list, table, req, recvs[i], extRcv', ps[i].conns);
      i := i + 1;
    }
    assert i < |ps| - 1 ==> IsRecvStep(req, owners, recvs[i], ps[i], ps[i + 1]);
    if end.More? {
      end := Failed;
    }
  }

  // ----- the owner table

  /** One process directory: its command, unless reading it fails, and its sockets. */
  datatype Proc = Proc(pid: int, comm: Option<CString>, inodes: seq<nat>)

  /** Recording (inode, owner) pairs one after the other. */
  function OwnersFrom(pairs: seq<(nat, Owner)>): (m: map<nat, Owner>)
  {
    if pairs == [] then map[]
    else FirstWins(OwnersFrom(pairs[..|pairs| - 1]), pairs[|pairs| - 1].0, pairs[|pairs| - 1].1)
  }

  /** An inode is found exactly when it is not 0 and was recorded; its first owner wins. */
  lemma {:induction false} FirstPairWins(pairs: seq<(nat, Owner)>, inode: nat)
    ensures inode in OwnersFrom(pairs) <==> inode != 0 && exists i :: 0 <= i < |pairs| && pairs[i].0 == inode
    ensures forall i | 0 <= i < |pairs| && pairs[i].0 == inode && inode != 0
                       && (forall j | 0 <= j < i :: pairs[j].0 != inode) ::
              inode in OwnersFrom(pairs) && OwnersFrom(pairs)[inode] == pairs[i].1
  {
    if pairs != [] {
      var front := pairs[..|pairs| - 1];
      FirstPairWins(front, inode);
      assert forall i | 0 <= i < |front| :: front[i] == pairs[i];
    }
  }

  function SocketsOf(p: Proc): (pairs: seq<(nat, Owner)>)
    requires p.comm.Some?
    ensures |pairs| == |p.inodes|
  {
    seq(|p.inodes|, i requires 0 <= i < |p.inodes| => (p.inodes[i], Owner(p.pid, p.comm.value)))
  }

  /** The sockets of all processes, up to the first whose command cannot be read. */
  function AllSockets(procs: seq<Proc>): (pairs: seq<(nat, Owner)>)
  {
    if procs == [] || procs[0].comm.None? then [] else SocketsOf(procs[0]) + AllSockets(procs[1..])
  }

  lemma {:induction false} NextSockets(procs: seq<Proc>, i: nat, done: seq<(nat, Owner)>)
    requires i < |procs|
    ensures procs[i].comm.None? ==> done + AllSockets(procs[i..]) == done
    ensures procs[i].comm.Some? ==> done + AllSockets(procs[i..]) == (done + SocketsOf(procs[i])) + AllSockets(procs[i + 1..])
  {
    assert procs[i..][0] == procs[i] && procs[i..][1..] == procs[i + 1..];
  }

  method AddSockets(table: OwnerTable, p: Proc, ghost pairs: seq<(nat, Owner)>)
    requires table.Valid() && table.Map() == OwnersFrom(pairs) && p.comm.Some?
    requires table.nrSockets + |p.inodes| <= INT_MAX
    modifies table, table.hb, table.log
    ensures table.Valid() && table.Map() == OwnersFrom(pairs + SocketsOf(p))
    ensures table.hb == old(table.hb) && table.shift == old(table.shift)
    ensures table.nrSockets <= old(table.nrSockets) + |p.inodes|
    ensures forall k | 0 <= k < |table.log| :: table.log[k] in old(table.log) || fresh(table.log[k])
  {
    var i := 0;
    ghost var owners := OwnersAfter(pairs, p);
    while i < |p.inodes|
      invariant 0 <= i <= |p.inodes|
      invariant table.Valid() && table.Map() == owners[i]
      invariant table.hb == old(table.hb) && table.shift == old(table.shift)
      invariant table.nrSockets <= old(table.nrSockets) + i
      invariant forall k | 0 <= k < |table.log| :: table.log[k] in old(table.log) || fresh(table.log[k])
    {
      table.Add(p.inodes[i], Owner(p.pid, p.comm.value));
      i := i + 1;
    }
  }

  /** The maps on the way while the sockets of `p` are added. */
  lemma {:induction false} OwnersAfter(pairs: seq<(nat, Owner)>, p: Proc) returns (owners: seq<map<nat, Owner>>)
    requires p.comm.Some?
    ensures |owners| == |p.inodes| + 1
    ensures owners[0] == OwnersFrom(pairs) && owners[|p.inodes|] == OwnersFrom(pairs + SocketsOf(p))
    ensures forall i | 0 <= i < |p.inodes| :: owners[i + 1] == FirstWins(owners[i], p.inodes[i], Owner(p.pid, p.comm.value))
  {
    var sockets := SocketsOf(p);
    owners := seq(|sockets| + 1, i requires 0 <= i <= |sockets| => OwnersFrom(pairs + sockets[..i]));
    assert pairs + sockets[..0] == pairs && pairs + sockets[..|sockets|] == pairs + sockets;
    forall i | 0 <= i < |sockets|
      ensures owners[i + 1] == FirstWins(owners[i], p.inodes[i], Owner(p.pid, p.comm.value))
    {
      var more := pairs + sockets[..i + 1];
      assert more[..|more| - 1] == pairs + sockets[..i];
    }
  }

  /** Fills the empty table when owners are asked for. */
  method BuildMap(table: OwnerTable, extReq: set<nat>, procs: seq<Proc>) returns (err: bool)
    requires table.Valid() && table.log == [] && |AllSockets(procs)| <= INT_MAX
    modifies table, table.hb
    ensures table.Valid() && table.hb == old(table.hb) && table.shift == old(table.shift)
    ensures INET_DIAG_PROC !in extReq ==> !err && table.log == []
    ensures INET_DIAG_PROC in extReq ==>
              table.Map() == OwnersFrom(AllSockets(procs))
              && (err <==> exists i :: 0 <= i < |procs| && procs[i].comm.None?)
    ensures forall k | 0 <= k < |table.log| :: fresh(table.log[k])
  {
    if INET_DIAG_PROC !in extReq {
      return false;
    }
    err := FillMap(table, procs);
  }

  /** Records the sockets of process after process. */
  method FillMap(table: OwnerTable, procs: seq<Proc>) returns (err: bool)
    requires table.Valid() && table.log == [] && |AllSockets(procs)| <= INT_MAX
    modifies table, table.hb
    ensures table.Valid() && table.hb == old(table.hb) && table.shift == old(table.shift)
    ensures table.Map() == OwnersFrom(AllSockets(procs))
    ensures err <==> exists i :: 0 <= i < |procs| && procs[i].comm.None?
    ensures forall k | 0 <= k < |table.log| :: fresh(table.log[k])
  {
    ghost var done, all := [], AllSockets(procs);
    var i := 0;
    while i < |procs|
      invariant 0 <= i <= |procs| && forall j | 0 <= j < i :: procs[j].comm.Some?
      invariant done + AllSockets(procs[i..]) == all
      invariant table.Valid() && table.Map() == OwnersFrom(done) && table.nrSockets <= |done|
      invariant table.hb == old(table.hb) && table.shift == old(table.shift)
      invariant forall k | 0 <= k < |table.log| :: fresh(table.log[k])
    {
      NextSockets(procs, i, done);
      if procs[i].comm.None? {
        return true;
      }
      AddSockets(table, procs[i], done);
      done := done + SocketsOf(procs[i]);
      i := i + 1;
    }
    assert done == all;
    return false;
  }
}
