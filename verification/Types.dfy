/** The values every component shares: connections, display fields and filters. */
module Types {
  datatype Option<+T> = None | Some(value: T)

  datatype Family = Inet | Inet6

  datatype Protocol = Tcp | Udp

  function AddressLength(family: Family): (len: nat)
  {
    if family.Inet? then 4 else 16
  }

  /** A 16-byte address buffer in network order; IPv4 uses its first 4 bytes. */
  type Bytes16 = s: seq<bv8> | |s| == 16 witness [0, 0, 0, 0, 0, 0, 0, 0, 0, 0, 0, 0, 0, 0, 0, 0]

  /** A C string without its terminator: 8-bit characters, none of them NUL. */
  predicate IsCString(s: string)
  {
    forall i | 0 <= i < |s| :: '\0' < s[i] && s[i] as int < 256
  }

  type CString = s: string | IsCString(s)

  // Attribute numbers. An attribute set holds `k` where the source has bit `k`
  // of a word set (bit `k - 1` for the request word).
  const INET_DIAG_NONE := 0
  const INET_DIAG_MAX := 23
  const INET_DIAG_ADDRESS := INET_DIAG_MAX
  const INET_DIAG_PROC := INET_DIAG_MAX + 1

  /** One netlink attribute: its type and its payload bytes. */
  datatype Attr = Attr(kind: nat, data: seq<int>)

  /** The fixed part of a diagnostic message (the members used by this model). */
  datatype DiagMsg = DiagMsg(family: Family, src: Bytes16, dst: Bytes16,
                             sport: nat, dport: nat, state: nat, inode: nat)

  /** One listed connection; `ext` says which attribute groups it carries. */
  datatype Conn = Conn(r: DiagMsg, attrs: seq<Attr>, ext: set<nat>, pid: int, comm: CString)

  /** What lies at a field's offset inside a connection. */
  datatype Value =
    | NumberValue(n: nat)
    | TextValue(s: string)
    | AddressValue(family: Family, bytes: Bytes16)
    // A byte of flags: its value, and the numbers of the bits that are set.
    | FlagsValue(n: nat, bits: set<nat>)

  datatype CmpOp = EQ | NE | GT | GE | LT | LE | CT | NC

  datatype Filter =
    | NumberFilter(op: CmpOp, v: nat)
    | TextFilter(op: CmpOp, s: string)
    | AddressFilter(op: CmpOp, family: Family, addr: Bytes16, mask: Bytes16)
    | ChoiceFilter(selected: set<nat>)

  /** The value type of a field, which also selects its filter dialog. */
  datatype Kind = NumberKind | TextKind | AddressKind | ChoiceKind(first: nat, last: nat)

  /** One row of the field table. A row that is not `drawable` is a group heading:
      it has no row renderer, comparator, filter dialog or filter evaluator. */
  datatype Field = Field(
    header: string,
    desc: string,
    enabled: bool,
    pinned: bool,
    filterOn: bool,
    extReq: nat,
    extRcv: nat,
    width: nat,
    kind: Kind,
    drawable: bool,
    read: Conn -> Value,
    render: Conn -> string,
    filter: Option<Filter>)

  /** The column width in use: address columns keep two widths in one number. */
  function ColumnWidth(f: Field, family: Family): (w: nat)
  {
    if f.extRcv == INET_DIAG_ADDRESS then
      (if family.Inet? then f.width / 256 else f.width) % 256
    else
      f.width
  }
}
