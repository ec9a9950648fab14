/** The command blocks of shell_pfs.c:260-285: three constant tables that
    make the menu tree. Each row of a table is a C struct with a label, one
    slot that holds either a command function or (cast through BLOCK_LEN) the
    number of entries of the block, and a pointer to a child block. Which of
    the three meanings a row has is told by which slots are null.

    `Row` is that raw encoding; `Entry` is the tagged form it stands for,
    with `Decode` and `Encode` between the two. A block is well formed when
    its first entry is the title, its title counts the entries after it, and
    no other entry is a title. */
module Registry {
  import opened Shell

  /** The commands a row can name. */
  datatype CommandId = LedToggle | Flash | Cnt | Load

  /** The three blocks the tables declare. */
  datatype BlockId = Root | Level1 | Level2

  /** The function-pointer slot of a row: null, a command, or a title's
      entry count stored in the pointer by BLOCK_LEN. */
  datatype Slot = NullFn | Fn(cmd: CommandId) | Len(count: nat)

  /** One row as the C initialiser writes it. */
  datatype Row = Row(name: string, slot: Slot, child: Option<BlockId>)

  /** What a row means. */
  datatype Kind = Title(count: nat) | Runnable(cmd: CommandId) | Submenu(child: BlockId)

  datatype Entry = Entry(name: string, kind: Kind)

  /** The meaning of a raw row: a count and no child is a title, a function
      and no child a runnable command, a null function and a child a submenu.
      Any other combination means nothing. */
  function Decode(r: Row): (e: Option<Entry>)
    ensures e.Some? ==> e.value.name == r.name
    ensures e.Some? <==> (r.slot.NullFn? <==> r.child.Some?)
  {
    match (r.slot, r.child)
    case (Len(n), None) => Some(Entry(r.name, Title(n)))
    case (Fn(c), None) => Some(Entry(r.name, Runnable(c)))
    case (NullFn, Some(b)) => Some(Entry(r.name, Submenu(b)))
    case _ => None
  }

  /** The row the C initialiser writes for an entry. */
  function Encode(e: Entry): Row
  {
    match e.kind
    case Title(n) => Row(e.name, Len(n), None)
    case Runnable(c) => Row(e.name, Fn(c), None)
    case Submenu(b) => Row(e.name, NullFn, Some(b))
  }

  /** Every entry is written by exactly one row: encoding and decoding are
      inverse to each other on the rows that mean something. */
  lemma DecodeEncode(e: Entry)
    ensures Decode(Encode(e)) == Some(e)
  {
  }

  lemma EncodeDecode(r: Row)
    requires Decode(r).Some?
    ensures Encode(Decode(r).value) == r
  {
  }

  /** Submenu rows carry a null function and a child block; every other
      meaningful row carries a function or count and no child. */
  lemma RowSlots(r: Row)
    requires Decode(r).Some?
    ensures Decode(r).value.kind.Submenu? <==> r.slot.NullFn?
    ensures Decode(r).value.kind.Submenu? ==> r.child == Some(Decode(r).value.kind.child)
    ensures !Decode(r).value.kind.Submenu? ==> r.child.None?
  {
  }

  /** The entries of a table, if every row means something. */
  function DecodeRows(rows: seq<Row>): (es: Option<seq<Entry>>)
    ensures es.Some? ==> |es.value| == |rows|
    ensures es.Some? ==> forall i :: 0 <= i < |rows| ==> Decode(rows[i]) == Some(es.value[i])
  {
    if rows == [] then Some([])
    else match (Decode(rows[0]), DecodeRows(rows[1..]))
      case (Some(e), Some(rest)) => Some([e] + rest)
      case _ => None
  }

  /** Decoding a table fails exactly when one of its rows means nothing. */
  lemma {:induction false} DecodeRowsFails(rows: seq<Row>)
    ensures DecodeRows(rows).None? <==> exists i :: 0 <= i < |rows| && Decode(rows[i]).None?
  {
    if rows != [] {
      DecodeRowsFails(rows[1..]);
      if Decode(rows[0]).Some? && DecodeRows(rows[1..]).None? {
        var j :| 0 <= j < |rows[1..]| && Decode(rows[1..][j]).None?;
        assert Decode(rows[j + 1]).None?;
      }
      if DecodeRows(rows).Some? {
        forall i | 0 <= i < |rows| ensures Decode(rows[i]).Some? {
        }
      }
    }
  }

  /** A block: a title counting the entries after it, and no other title. */
  predicate WellFormed(es: seq<Entry>)
  {
    |es| >= 1 && es[0].kind == Title(|es| - 1)
    && forall i :: 1 <= i < |es| ==> !es[i].kind.Title?
  }

  /** Decides `WellFormed` on a raw table: Some(entries) when every row
      means something and the entries make a well-formed block, None
      otherwise. The firmware performs no such check; it uses the tables as
      they are written. */
  function CheckBlock(rows: seq<Row>): (es: Option<seq<Entry>>)
  {
    match DecodeRows(rows)
    case None => None
    case Some(es) =>
      if |es| >= 1 && es[0].kind.Title? && es[0].kind.count == |es| - 1 && NoTitleAfter(es, 1) then Some(es)
      else None
  }

  /** No entry from index `k` on is a title. */
  predicate NoTitleAfter(es: seq<Entry>, k: nat)
    decreases |es| - k
  {
    k >= |es| || (!es[k].kind.Title? && NoTitleAfter(es, k + 1))
  }

  lemma {:induction false} NoTitleAfterMeans(es: seq<Entry>, k: nat)
    ensures NoTitleAfter(es, k) <==> forall i :: k <= i < |es| ==> !es[i].kind.Title?
    decreases |es| - k
  {
    if k < |es| {
      NoTitleAfterMeans(es, k + 1);
    }
  }

  /** CheckBlock accepts a table exactly when it encodes a
      well-formed block, and then returns that block. */
  lemma CheckBlockMeans(rows: seq<Row>, es: seq<Entry>)
    ensures CheckBlock(rows) == Some(es) <==> DecodeRows(rows) == Some(es) && WellFormed(es)
  {
    NoTitleAfterMeans(es, 1);
  }

  /** The rows of a table written from a block, one per entry. */
  function EncodeRows(es: seq<Entry>): (rows: seq<Row>)
    ensures |rows| == |es| && forall i :: 0 <= i < |es| ==> rows[i] == Encode(es[i])
  {
    seq(|es|, i requires 0 <= i < |es| => Encode(es[i]))
  }

  /** Writing a well-formed block as a table and checking it gives the block back. */
  lemma {:induction false} CheckEncoded(es: seq<Entry>)
    requires WellFormed(es)
    ensures CheckBlock(EncodeRows(es)) == Some(es)
  {
    DecodeEncodedRows(es);
    CheckBlockMeans(EncodeRows(es), es);
  }

  lemma {:induction false} DecodeEncodedRows(es: seq<Entry>)
    ensures DecodeRows(EncodeRows(es)) == Some(es)
  {
    if es != [] {
      var rows := EncodeRows(es);
      assert rows[1..] == EncodeRows(es[1..]);
      DecodeEncodedRows(es[1..]);
      DecodeEncode(es[0]);
      assert [es[0]] + es[1..] == es;
    }
  }

  const LoadLabel := "load - performance test"

  /** `level_2_block`: a title counting 2, then two load rows. */
  const Level2Rows := [
    Row("Submenu 2", Len(2), None),
    Row(LoadLabel, Fn(Load), None),
    Row(LoadLabel, Fn(Load), None)
  ]

  /** `level_1_block`: a title counting 3, two load rows, and the submenu
      row leading to level_2_block. */
  const Level1Rows := [
    Row("Submenu 1", Len(3), None),
    Row(LoadLabel, Fn(Load), None),
    Row(LoadLabel, Fn(Load), None),
    Row("sm2 - nested submenu example", NullFn, Some(Level2))
  ]

  /** `root_block`: the title "STM32" counting 5, the submenu row leading to
      level_1_block, and the four commands. */
  const RootRows := [
    Row("STM32", Len(5), None),
    Row("sm1 - submenu example", NullFn, Some(Level1)),
    Row("led - toggles the blue LED", Fn(LedToggle), None),
    Row("flash N - flash the LED 'N' times", Fn(Flash), None),
    Row("cnt - displays its own call count", Fn(Cnt), None),
    Row(LoadLabel, Fn(Load), None)
  ]

  function Table(b: BlockId): seq<Row>
  {
    match b
    case Root => RootRows
    case Level1 => Level1Rows
    case Level2 => Level2Rows
  }

  /** The declared tables all pass CheckBlock, with the titles
      counting 5, 3 and 2 entries. */
  lemma TablesWellFormed(b: BlockId)
    ensures CheckBlock(Table(b)).Some?
    ensures WellFormed(CheckBlock(Table(b)).value)
    ensures |Table(b)| - 1 == (match b case Root => 5 case Level1 => 3 case Level2 => 2)
  {
    RowsWellFormed(Table(b));
  }

  /** A table whose first row is a count of the rows after it, and whose
      other rows are meaningful and no counts, passes CheckBlock. */
  lemma RowsWellFormed(rows: seq<Row>)
    requires |rows| >= 1 && rows[0].slot == Len(|rows| - 1) && rows[0].child.None?
    requires forall i :: 1 <= i < |rows| ==> Decode(rows[i]).Some? && !rows[i].slot.Len?
    ensures CheckBlock(rows).Some? && WellFormed(CheckBlock(rows).value)
  {
    DecodeRowsFails(rows);
    assert Decode(rows[0]).Some?;
    var es := DecodeRows(rows).value;
    forall i | 1 <= i < |es| ensures !es[i].kind.Title? {
      assert Decode(rows[i]) == Some(es[i]);
    }
    assert Decode(rows[0]) == Some(es[0]);
    CheckBlockMeans(rows, es);
  }

  /** Every command is registered in the root block; the submenus register
      only `load`. */
  lemma RegisteredCommands(c: CommandId)
    ensures exists i :: 0 <= i < |RootRows| && RootRows[i].slot == Fn(c)
    ensures forall i :: 0 <= i < |Level1Rows| && Level1Rows[i].slot.Fn? ==> Level1Rows[i].slot.cmd == Load
    ensures forall i :: 0 <= i < |Level2Rows| && Level2Rows[i].slot.Fn? ==> Level2Rows[i].slot.cmd == Load
  {
    var i := match c case LedToggle => 2 case Flash => 3 case Cnt => 4 case Load => 5;
    assert RootRows[i].slot == Fn(c);
  }

  /** Whether a row of block `b` leads to block `c`. */
  predicate ChildOf(b: BlockId, c: BlockId)
  {
    exists i :: 0 <= i < |Table(b)| && Table(b)[i].child == Some(c)
  }

  /** The submenu links of the declared tables: root to level 1, level 1 to
      level 2, and no other. */
  lemma ChildLinks(b: BlockId, c: BlockId)
    ensures ChildOf(b, c) <==> (b == Root && c == Level1) || (b == Level1 && c == Level2)
  {
    if b == Root && c == Level1 {
      assert Table(b)[1].child == Some(c);
    }
    if b == Level1 && c == Level2 {
      assert Table(b)[3].child == Some(c);
    }
  }

  /** The depth of a block below the root. */
  function Depth(b: BlockId): nat
  {
    match b
    case Root => 0
    case Level1 => 1
    case Level2 => 2
  }

  /** A walk down the menu tree, each block a submenu of the one before. */
  predicate IsPath(p: seq<BlockId>)
  {
    forall i :: 0 <= i < |p| - 1 ==> ChildOf(p[i], p[i + 1])
  }

  /** Every step of a walk goes one level deeper. */
  lemma {:induction false} PathDepth(p: seq<BlockId>)
    requires IsPath(p) && |p| >= 1
    ensures Depth(p[|p| - 1]) == Depth(p[0]) + |p| - 1
  {
    if |p| > 1 {
      var q := p[..|p| - 1];
      assert IsPath(q) by {
        forall i | 0 <= i < |q| - 1 ensures ChildOf(q[i], q[i + 1]) {
          assert q[i] == p[i] && q[i + 1] == p[i + 1];
        }
      }
      PathDepth(q);
      ChildLinks(p[|p| - 2], p[|p| - 1]);
    }
  }

  /** The menu tree has no cycle: no walk of one or more steps comes back
      to the block it started from. */
  lemma Acyclic(p: seq<BlockId>)
    requires IsPath(p) && |p| >= 2
    ensures p[0] != p[|p| - 1]
  {
    PathDepth(p);
  }

  /** Every block is reached from the root: level 2 through level 1. */
  lemma RootReachesAll()
    ensures IsPath([Root, Level1, Level2])
  {
    ChildLinks(Root, Level1);
    ChildLinks(Level1, Level2);
  }
}
