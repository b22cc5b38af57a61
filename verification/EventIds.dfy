/**
 Event identity (crates/xdr-parser/src/event.rs): a TOID in the layout of SEP-0035 and
 an event number, with ledger-wide counters for transaction-level events and random
 access to one transaction's events from counters summed ahead.
 */
module EventIds {
  import opened Bits
  import opened Decimal
  import opened Options

  datatype EventId = EventId(ledger: nat, transaction: nat, operation: nat, event: nat)

  const BEFORE_ALL_TXS: nat := 0
  const AFTER_ALL_TXS: nat := 1_048_575
  const AFTER_TX_OPERATION: nat := 4_095

  function Toid(id: EventId): nat
  {
    Or(Or(Shl(id.ledger, 32), Shl(id.transaction, 12)), id.operation)
  }

  function ToRpcString(id: EventId): string
  {
    Format(Toid(id), 19) + "-" + Format(id.event, 10)
  }

  /** The transaction part fits 20 bits, the operation part 12. */
  predicate Fits(id: EventId)
  {
    id.transaction < 0x10_0000 && id.operation < 0x1000
  }

  lemma ToidValue(id: EventId)
    requires Fits(id)
    ensures Toid(id) == id.ledger * 0x1_0000_0000 + id.transaction * 0x1000 + id.operation
  {
    Pow2Values();
    var t, l := Shl(id.transaction, 12), Shl(id.ledger, 32);
    assert t < Pow2(32);
    OrDisjoint(id.ledger, 32, t);
    assert l + t == Shl(id.ledger * 0x10_0000 + id.transaction, 12);
    OrDisjoint(id.ledger * 0x10_0000 + id.transaction, 12, id.operation);
  }

  /** The layout has an inverse. */
  lemma ToidInverse(id: EventId)
    requires Fits(id)
    ensures Toid(id) / 0x1_0000_0000 == id.ledger
    ensures Toid(id) / 0x1000 % 0x10_0000 == id.transaction
    ensures Toid(id) % 0x1000 == id.operation
  {
    hide Toid;
    ToidValue(id);
    var upper := id.ledger * 0x10_0000 + id.transaction;
    assert Toid(id) == upper * 0x1000 + id.operation;
    Split12(upper, id.operation);
    Split20(id.ledger, id.transaction);
    Split32(id.ledger, id.transaction * 0x1000 + id.operation);
  }

  lemma Split12(q: nat, r: nat)
    requires r < 0x1000
    ensures (q * 0x1000 + r) / 0x1000 == q && (q * 0x1000 + r) % 0x1000 == r
  {
  }

  lemma Split20(q: nat, r: nat)
    requires r < 0x10_0000
    ensures (q * 0x10_0000 + r) % 0x10_0000 == r
  {
  }

  lemma Split32(q: nat, r: nat)
    requires r < 0x1_0000_0000
    ensures (q * 0x1_0000_0000 + r) / 0x1_0000_0000 == q
  {
  }

  /** Ledger, then transaction, then operation. */
  predicate Earlier(a: EventId, b: EventId)
  {
    a.ledger < b.ledger
    || (a.ledger == b.ledger && (a.transaction < b.transaction
                                 || (a.transaction == b.transaction && a.operation < b.operation)))
  }

  lemma ToidOrder(a: EventId, b: EventId)
    requires Fits(a) && Fits(b)
    ensures Toid(a) < Toid(b) <==> Earlier(a, b)
    ensures Toid(a) == Toid(b) <==> a.ledger == b.ledger && a.transaction == b.transaction && a.operation == b.operation
  {
    ToidValue(a);
    ToidValue(b);
  }

  /** Ids in TOID order, and by event number within a TOID. */
  predicate IdLess(a: EventId, b: EventId)
  {
    Toid(a) < Toid(b) || (Toid(a) == Toid(b) && a.event < b.event)
  }

  /** The ids `getEvents` returns sort as text exactly as the ids do, as long as a TOID has 19 digits. */
  lemma RpcStringOrder(a: EventId, b: EventId)
    requires Toid(a) < Pow10(19) && Toid(b) < Pow10(19) && a.event < 0x1_0000_0000 && b.event < 0x1_0000_0000
    ensures LexLess(ToRpcString(a), ToRpcString(b)) <==> IdLess(a, b)
    ensures ToRpcString(a) == ToRpcString(b) <==> Toid(a) == Toid(b) && a.event == b.event
  {
    hide Toid, LexLess, Format, Pad;
    assert Pow10(10) == 10_000_000_000 by { assert Pow10(5) == 100_000; }
    FormatIsPad(Toid(a), 19);
    FormatIsPad(Toid(b), 19);
    FormatIsPad(a.event, 10);
    FormatIsPad(b.event, 10);
    PadOrder(Toid(a), Toid(b), 19);
    PadOrder(a.event, b.event, 10);
    var x, y := Pad(Toid(a), 19), Pad(Toid(b), 19);
    var u, v := Pad(a.event, 10), Pad(b.event, 10);
    LexConcat("-", "-", u, v);
    LexConcat(x, y, "-" + u, "-" + v);
    assert !LexLess("-", "-") by { LexIrreflexive("-"); }
    assert x + "-" + u == x + ("-" + u) && y + "-" + v == y + ("-" + v);
    if x + ("-" + u) == y + ("-" + v) {
      assert x == (x + ("-" + u))[..19] && y == (y + ("-" + v))[..19];
      assert u == (x + ("-" + u))[20..] && v == (y + ("-" + v))[20..];
    }
  }

  /** A TOID has at most 19 digits exactly before transaction 564864 of ledger 2328306436, so everywhere below ledger 2^31. */
  lemma NineteenDigits(id: EventId)
    requires Fits(id)
    ensures Toid(id) < Pow10(19) <==> Earlier(id, EventId(2_328_306_436, 564_864, 0, 0))
    ensures id.ledger < 0x8000_0000 ==> Toid(id) < Pow10(19)
  {
    hide Toid, Pow10;
    ToidValue(id);
    assert Pow10(19) == 10_000_000_000_000_000_000 by { Quintillion(); }
  }

  /** Within ledger 2328306436 the TOIDs reach 20 digits, and the strings of two of its transactions sort the wrong way round. */
  lemma RpcStringOrderBreaks()
    ensures var a, b := EventId(2_328_306_436, 564_863, 0, 0), EventId(2_328_306_436, 564_864, 0, 0);
            && IsId(a) && IsId(b) && Toid(a) < Toid(b) == Pow10(19) && IdLess(a, b)
            && LexLess(ToRpcString(b), ToRpcString(a)) && !LexLess(ToRpcString(a), ToRpcString(b))
  {
    var a, b := EventId(2_328_306_436, 564_863, 0, 0), EventId(2_328_306_436, 564_864, 0, 0);
    hide Toid, LexLess, ToRpcString, Pow10;
    ToidValue(a);
    ToidValue(b);
    RpcFirst(a, 9);
    RpcFirst(b, 10);
    SmallFormats();
    Quintillion();
    FirstDecides(ToRpcString(b), ToRpcString(a));
  }

  /** An id whose parts fit the widths the source stores them in. */
  predicate IsId(id: EventId)
  {
    Fits(id) && id.ledger < 0x1_0000_0000 && id.event < 0x1_0000_0000
  }

  /** `a`'s TOID has 19 digits and `b`'s 20, and `a`'s is larger than the first 19 of `b`'s. */
  predicate Straddles(a: EventId, b: EventId)
  {
    Toid(a) < Pow10(19) <= Toid(b) && Toid(a) > Toid(b) / 10
  }

  /** Two strings compare as the ids do except exactly when one id straddles the other. */
  lemma RpcStringOrderIff(a: EventId, b: EventId)
    requires IsId(a) && IsId(b)
    ensures (LexLess(ToRpcString(a), ToRpcString(b)) <==> IdLess(a, b)) <==> !Straddles(a, b) && !Straddles(b, a)
  {
    hide Toid, LexLess, ToRpcString, Pow10;
    if Toid(a) < Pow10(19) && Toid(b) < Pow10(19) {
      RpcStringOrder(a, b);
    } else if Toid(a) >= Pow10(19) && Toid(b) >= Pow10(19) {
      WideTexts(a, b);
    } else if Toid(a) < Pow10(19) {
      MixedTexts(a, b);
    } else {
      MixedTexts(b, a);
    }
  }

  lemma WideText(id: EventId)
    requires IsId(id) && Toid(id) >= Pow10(19)
    ensures Toid(id) < Pow10(20) && ToRpcString(id) == Pad(Toid(id), 20) + ("-" + Pad(id.event, 10))
    ensures Toid(id) / 10 < Pow10(19) && Pad(Toid(id), 20) == Pad(Toid(id) / 10, 19) + [Digit(Toid(id) % 10)]
  {
    hide Toid, Format, Pow10;
    ToidValue(id);
    Quintillion();
    TenDigits(id.event);
    assert Pow10(20) == 10 * Pow10(19) by { TenTimesMore(19); }
    FormatIsPadOneMore(Toid(id), 19);
    FormatIsPad(id.event, 10);
  }

  lemma TenTimesMore(w: nat)
    ensures Pow10(w + 1) == 10 * Pow10(w)
  {
  }

  lemma TenDigits(n: nat)
    requires n < 0x1_0000_0000
    ensures n < Pow10(10)
  {
    assert Pow10(5) == 100_000;
  }

  lemma NarrowText(id: EventId)
    requires IsId(id) && Toid(id) < Pow10(19)
    ensures ToRpcString(id) == Pad(Toid(id), 19) + ("-" + Pad(id.event, 10))
  {
    hide Toid, Format, Pow10;
    TenDigits(id.event);
    FormatIsPad(Toid(id), 19);
    FormatIsPad(id.event, 10);
  }

  lemma EventOrder(m: nat, n: nat)
    requires m < 0x1_0000_0000 && n < 0x1_0000_0000
    ensures LexLess("-" + Pad(m, 10), "-" + Pad(n, 10)) <==> m < n
  {
    hide LexLess, Pad;
    TenDigits(m);
    TenDigits(n);
    PadOrder(m, n, 10);
    LexConcat("-", "-", Pad(m, 10), Pad(n, 10));
    LexIrreflexive("-");
  }

  lemma WideTexts(a: EventId, b: EventId)
    requires IsId(a) && IsId(b) && Toid(a) >= Pow10(19) && Toid(b) >= Pow10(19)
    ensures LexLess(ToRpcString(a), ToRpcString(b)) <==> IdLess(a, b)
  {
    hide Toid, LexLess, ToRpcString, Pow10, Pad;
    WideText(a);
    WideText(b);
    PadOrder(Toid(a), Toid(b), 20);
    EventOrder(a.event, b.event);
    LexConcat(Pad(Toid(a), 20), Pad(Toid(b), 20), "-" + Pad(a.event, 10), "-" + Pad(b.event, 10));
  }

  /** A dash sorts before a digit, so a 19-digit TOID comes first exactly when it is at most the other's front. */
  lemma MixedTexts(a: EventId, b: EventId)
    requires IsId(a) && IsId(b) && Toid(a) < Pow10(19) <= Toid(b)
    ensures LexLess(ToRpcString(a), ToRpcString(b)) <==> Toid(a) <= Toid(b) / 10
    ensures LexLess(ToRpcString(b), ToRpcString(a)) <==> Toid(a) > Toid(b) / 10
  {
    hide Toid, LexLess, ToRpcString, Pow10, Pad;
    NarrowText(a);
    WideText(b);
    var front := Toid(b) / 10;
    PadOrder(Toid(a), front, 19);
    PadOrder(front, Toid(a), 19);
    var x, y := "-" + Pad(a.event, 10), [Digit(Toid(b) % 10)] + ("-" + Pad(b.event, 10));
    assert ToRpcString(b) == Pad(front, 19) + y;
    FirstDecides(x, y);
    LexConcat(Pad(Toid(a), 19), Pad(front, 19), x, y);
    LexConcat(Pad(front, 19), Pad(Toid(a), 19), y, x);
  }

  /** So the strings sort as the ids on the TOIDs below `n` exactly when those have at most 19 digits. */
  lemma RpcStringsSortExactlyBelow(n: nat)
    ensures (forall a, b | IsId(a) && IsId(b) && Toid(a) < n && Toid(b) < n :: LexLess(ToRpcString(a), ToRpcString(b)) <==> IdLess(a, b))
       <==> n <= Pow10(19)
  {
    hide Toid, LexLess, ToRpcString, IdLess, Pow10;
    if n <= Pow10(19) {
      forall a, b | IsId(a) && IsId(b) && Toid(a) < n && Toid(b) < n ensures LexLess(ToRpcString(a), ToRpcString(b)) <==> IdLess(a, b) {
        RpcStringOrder(a, b);
      }
    } else {
      RpcStringOrderBreaks();
    }
  }

  lemma RpcFirst(id: EventId, d: nat)
    requires d * 1_000_000_000_000_000_000 <= Toid(id) < (d + 1) * 1_000_000_000_000_000_000
    ensures ToRpcString(id) != "" && ToRpcString(id)[0] == Format(d, 1)[0]
  {
    hide Toid, Format, Pow10;
    Quintillion();
    FormatFirst(Toid(id), 19, d);
  }

  lemma Quintillion()
    ensures Pow10(18) == 1_000_000_000_000_000_000 && Pow10(19) == 10_000_000_000_000_000_000
  {
    assert Pow10(5) == 100_000 && Pow10(10) == 10_000_000_000 && Pow10(15) == 1_000_000_000_000_000;
  }

  lemma SmallFormats()
    ensures Format(9, 1)[0] == '9' && Format(10, 1)[0] == '1'
  {
    assert Format(1, 0) == "1";
  }

  // ---------- The events of a ledger ----------

  datatype Stage = BeforeAllTxs | AfterTx | AfterAllTxs

  /** A contract event; its decoded body is kept as it is. */
  datatype Event = Event(body: string)

  datatype TxEvent = TxEvent(stage: Stage, event: Event)

  datatype SorobanMeta = SorobanMeta(events: seq<Event>, diagnostic: seq<Event>)

  datatype TxMeta =
    | Older
    | V3(soroban: Option<SorobanMeta>)
    | V4(events: seq<TxEvent>, operations: seq<seq<Event>>, diagnosticEvents: seq<Event>)

  datatype Containers = Containers(transaction: seq<TxEvent>, operations: seq<seq<Event>>, diagnostic: seq<Event>)

  function ContainersOf(meta: TxMeta): Containers
  {
    match meta
    case Older => Containers([], [], [])
    case V3(None) => Containers([], [], [])
    case V3(Some(soroban)) => Containers([], [soroban.events], soroban.diagnostic)
    case V4(events, operations, diagnostic) => Containers(events, operations, diagnostic)
  }

  /** Which events a transaction has: the fourth meta's own three lists; the third's as its one operation; none before. */
  lemma EventLists(events: seq<TxEvent>, ops: seq<seq<Event>>, diagnostic: seq<Event>, list: seq<Event>)
    ensures ContainersOf(V4(events, ops, diagnostic)).transaction == events
    ensures ContainersOf(V4(events, ops, diagnostic)).operations == ops
    ensures ContainersOf(V4(events, ops, diagnostic)).diagnostic == diagnostic
    ensures var c := ContainersOf(V3(Some(SorobanMeta(list, diagnostic))));
            c.transaction == [] && c.operations == [list] && c.diagnostic == diagnostic
    ensures forall meta :: meta == V3(None) || meta == Older ==>
              var c := ContainersOf(meta); c.transaction == [] && c.operations == [] && c.diagnostic == []
  {
  }

  datatype Origin = Transaction(stage: Stage) | Operation(op: nat)

  datatype ExtractedEvent = ExtractedEvent(id: EventId, origin: Origin, body: Event)

  /** stellar-rpc's counters: ledger-wide before-all and after-all, and after-tx within one transaction. */
  datatype Counters = Counters(beforeAll: nat, afterAll: nat, afterTx: nat)

  function Bump(c: Counters, stage: Stage): Counters
  {
    match stage
    case BeforeAllTxs => c.(beforeAll := c.beforeAll + 1)
    case AfterAllTxs => c.(afterAll := c.afterAll + 1)
    case AfterTx => c.(afterTx := c.afterTx + 1)
  }

  function BumpAll(c: Counters, events: seq<TxEvent>): Counters
    decreases |events|
  {
    if events == [] then c else BumpAll(Bump(c, events[0].stage), events[1..])
  }

  function TxLevelId(ledger: nat, order: nat, stage: Stage, c: Counters): EventId
  {
    match stage
    case BeforeAllTxs => EventId(ledger, BEFORE_ALL_TXS, 0, c.beforeAll)
    case AfterAllTxs => EventId(ledger, AFTER_ALL_TXS, 0, c.afterAll)
    case AfterTx => EventId(ledger, order, AFTER_TX_OPERATION, c.afterTx)
  }

  /** The transaction-level events of the transaction at `order`, numbered from `c` on. */
  function TxLevel(ledger: nat, order: nat, events: seq<TxEvent>, c: Counters): seq<ExtractedEvent>
    decreases |events|
  {
    if events == [] then []
    else
      [ExtractedEvent(TxLevelId(ledger, order, events[0].stage, c), Transaction(events[0].stage), events[0].event)]
      + TxLevel(ledger, order, events[1..], Bump(c, events[0].stage))
  }

  function OpEvents(ledger: nat, order: nat, op: nat, events: seq<Event>): (out: seq<ExtractedEvent>)
    ensures |out| == |events|
  {
    seq(|events|, n requires 0 <= n < |events| => ExtractedEvent(EventId(ledger, order, op, n), Operation(op), events[n]))
  }

  function OpLevel(ledger: nat, order: nat, ops: seq<seq<Event>>, op: nat): seq<ExtractedEvent>
    decreases |ops|
  {
    if ops == [] then [] else OpEvents(ledger, order, op, ops[0]) + OpLevel(ledger, order, ops[1..], op + 1)
  }

  /** One transaction of stellar-rpc's pass: its events, numbered from the ledger-wide counters it starts with. */
  function TxPass(ledger: nat, order: nat, meta: TxMeta, beforeAll: nat, afterAll: nat): seq<ExtractedEvent>
  {
    TxLevel(ledger, order, ContainersOf(meta).transaction, Counters(beforeAll, afterAll, 0))
    + OpLevel(ledger, order, ContainersOf(meta).operations, 0)
  }

  /** stellar-rpc's pass over a whole ledger, one transaction after another, the counters carried along. */
  function LedgerPass(ledger: nat, metas: seq<TxMeta>, order: nat, beforeAll: nat, afterAll: nat): seq<seq<ExtractedEvent>>
    decreases |metas|
  {
    if metas == [] then []
    else
      var c := BumpAll(Counters(beforeAll, afterAll, 0), ContainersOf(metas[0]).transaction);
      [TxPass(ledger, order, metas[0], beforeAll, afterAll)]
      + LedgerPass(ledger, metas[1..], order + 1, c.beforeAll, c.afterAll)
  }

  /** How many events of a stage the transactions before `i` hold. */
  function CountBefore(metas: seq<TxMeta>, i: nat, stage: Stage): nat
    requires i <= |metas|
  {
    if i == 0 then 0 else CountBefore(metas, i - 1, stage) + Count(ContainersOf(metas[i - 1]).transaction, stage)
  }

  function Count(events: seq<TxEvent>, stage: Stage): nat
  {
    if events == [] then 0 else (if events[0].stage == stage then 1 else 0) + Count(events[1..], stage)
  }

  lemma CountFirst(events: seq<TxEvent>, k: nat, stage: Stage)
    requires k < |events|
    ensures Count(events[k..], stage) == (if events[k].stage == stage then 1 else 0) + Count(events[k + 1..], stage)
  {
    assert events[k..][0] == events[k] && events[k..][1..] == events[k + 1..];
  }

  /** The text is the TOID in at least 19 digits, a dash, and the event number in at least 10; both read back. */
  lemma RpcStringReads(id: EventId)
    ensures ToRpcString(id) == Format(Toid(id), 19) + ("-" + Format(id.event, 10))
    ensures Reading(Format(Toid(id), 19)) == Toid(id) && |Format(Toid(id), 19)| >= 19
    ensures Reading(Format(id.event, 10)) == id.event && |Format(id.event, 10)| >= 10
  {
    hide Toid, Format;
    FormatReads(Toid(id), 19);
    FormatReads(id.event, 10);
  }

  lemma {:induction false} BumpCounts(c: Counters, events: seq<TxEvent>)
    ensures BumpAll(c, events) == Counters(c.beforeAll + Count(events, BeforeAllTxs), c.afterAll + Count(events, AfterAllTxs),
                                           c.afterTx + Count(events, AfterTx))
    decreases |events|
  {
    if events != [] { BumpCounts(Bump(c, events[0].stage), events[1..]); }
  }

  lemma NoneLeft(events: seq<TxEvent>)
    ensures forall stage :: Count(events[|events|..], stage) == 0
  {
  }

  /** Each transaction's start counters are the events of the two ledger-wide stages ahead of it. */
  ghost predicate StartsOk(metas: seq<TxMeta>, starts: seq<(nat, nat)>)
    requires |starts| <= |metas|
  {
    forall i :: 0 <= i < |starts| ==> starts[i] == (CountBefore(metas, i, BeforeAllTxs), CountBefore(metas, i, AfterAllTxs))
  }

  lemma StartAt(metas: seq<TxMeta>, starts: seq<(nat, nat)>, i: nat)
    requires |starts| == |metas| && StartsOk(metas, starts)
    ensures i < |metas| ==> starts[i] == (CountBefore(metas, i, BeforeAllTxs), CountBefore(metas, i, AfterAllTxs))
  {
  }

  lemma NoStarts(metas: seq<TxMeta>)
    ensures StartsOk(metas, [])
  {
  }

  lemma StartsNext(metas: seq<TxMeta>, starts: seq<(nat, nat)>)
    requires |starts| < |metas| && StartsOk(metas, starts)
    ensures StartsOk(metas, starts + [(CountBefore(metas, |starts|, BeforeAllTxs), CountBefore(metas, |starts|, AfterAllTxs))])
  {
    hide CountBefore;
  }

  class LedgerEvents {
    const ledgerSequence: nat
    const metas: seq<TxMeta>
    /** The ledger-wide counters as each transaction starts. */
    var starts: seq<(nat, nat)>

    ghost predicate Valid()
      reads this
    {
      |starts| == |metas| && StartsOk(metas, starts)
    }

    constructor (ledgerSequence: nat, metas: seq<TxMeta>)
      ensures Valid() && this.ledgerSequence == ledgerSequence && this.metas == metas
    {
      this.ledgerSequence := ledgerSequence;
      this.metas := metas;
      hide Count, StartsOk;
      assert StartsOk(metas, []) by { NoStarts(metas); }
      var beforeAll: nat, afterAll: nat := 0, 0;
      var counts: seq<(nat, nat)> := [];
      for i := 0 to |metas|
        invariant |counts| == i && StartsOk(metas, counts)
        invariant beforeAll == CountBefore(metas, i, BeforeAllTxs) && afterAll == CountBefore(metas, i, AfterAllTxs)
      {
        StartsNext(metas, counts);
        counts := counts + [(beforeAll, afterAll)];
        var events := ContainersOf(metas[i]).transaction;
        ghost var b0, a0 := beforeAll, afterAll;
        assert events[0..] == events;
        for k := 0 to |events|
          invariant beforeAll + Count(events[k..], BeforeAllTxs) == b0 + Count(events, BeforeAllTxs)
          invariant afterAll + Count(events[k..], AfterAllTxs) == a0 + Count(events, AfterAllTxs)
        {
          CountFirst(events, k, BeforeAllTxs);
          CountFirst(events, k, AfterAllTxs);
          match events[k].stage
          case BeforeAllTxs => beforeAll := beforeAll + 1;
          case AfterAllTxs => afterAll := afterAll + 1;
          case AfterTx =>
        }
        NoneLeft(events);
      }
      starts := counts;
    }

    /** The events of one transaction: none when the ledger has no such transaction. */
    method Extract(txIndex: nat) returns (events: seq<ExtractedEvent>, diagnostic: seq<Event>)
      requires Valid()
      ensures txIndex >= |metas| ==> events == [] && diagnostic == []
      ensures txIndex < |metas| ==>
                && events == TxPass(ledgerSequence, txIndex + 1, metas[txIndex],
                                    CountBefore(metas, txIndex, BeforeAllTxs), CountBefore(metas, txIndex, AfterAllTxs))
                && diagnostic == ContainersOf(metas[txIndex]).diagnostic
    {
      hide Count, CountBefore, StartsOk;
      assert txIndex < |metas| ==> starts[txIndex] == (CountBefore(metas, txIndex, BeforeAllTxs), CountBefore(metas, txIndex, AfterAllTxs)) by {
        StartAt(metas, starts, txIndex);
      }
      if txIndex >= |metas| { return [], []; }
      var containers := ContainersOf(metas[txIndex]);
      var order := txIndex + 1;
      var (beforeAll, afterAll) := starts[txIndex];
      var c := Counters(beforeAll, afterAll, 0);
      ghost var txLevel := TxLevel(ledgerSequence, order, containers.transaction, c);
      events := [];
      assert containers.transaction[0..] == containers.transaction;
      for k := 0 to |containers.transaction|
        invariant events + TxLevel(ledgerSequence, order, containers.transaction[k..], c) == txLevel
      {
        var e := containers.transaction[k];
        ghost var rest := containers.transaction[k..];
        assert rest[0] == e && rest[1..] == containers.transaction[k + 1..];
        events := events + [ExtractedEvent(TxLevelId(ledgerSequence, order, e.stage, c), Transaction(e.stage), e.event)];
        c := Bump(c, e.stage);
      }
      assert containers.transaction[|containers.transaction|..] == [];
      ghost var opLevel := OpLevel(ledgerSequence, order, containers.operations, 0);
      assert containers.operations[0..] == containers.operations;
      for op := 0 to |containers.operations|
        invariant events + OpLevel(ledgerSequence, order, containers.operations[op..], op) == txLevel + opLevel
      {
        var opEvents := containers.operations[op];
        assert containers.operations[op..][0] == opEvents && containers.operations[op..][1..] == containers.operations[op + 1..];
        ghost var start := events;
        for n := 0 to |opEvents|
          invariant events == start + OpEvents(ledgerSequence, order, op, opEvents)[..n]
        {
          events := events + [ExtractedEvent(EventId(ledgerSequence, order, op, n), Operation(op), opEvents[n])];
        }
        assert OpEvents(ledgerSequence, order, op, opEvents)[..|opEvents|] == OpEvents(ledgerSequence, order, op, opEvents);
      }
      assert containers.operations[|containers.operations|..] == [];
      diagnostic := containers.diagnostic;
    }
  }

  /** Random access agrees with the sequential pass: transaction `i`, numbered from its summed-up
      counters, is slice `i` of one pass over the ledger. */
  lemma {:induction false} RandomAccessIsPassSlice(ledger: nat, metas: seq<TxMeta>, from: nat, i: nat)
    requires from <= i < |metas|
    ensures var pass := LedgerPass(ledger, metas[from..], from + 1, CountBefore(metas, from, BeforeAllTxs), CountBefore(metas, from, AfterAllTxs));
            && i - from < |pass|
            && pass[i - from] == TxPass(ledger, i + 1, metas[i], CountBefore(metas, i, BeforeAllTxs), CountBefore(metas, i, AfterAllTxs))
    decreases i - from
  {
    hide TxPass;
    var rest := metas[from..];
    assert rest[0] == metas[from] && rest[1..] == metas[from + 1..];
    BumpCounts(Counters(CountBefore(metas, from, BeforeAllTxs), CountBefore(metas, from, AfterAllTxs), 0), ContainersOf(metas[from]).transaction);
    if from < i { RandomAccessIsPassSlice(ledger, metas, from + 1, i); }
  }

  // ---------- Id order is execution order ----------

  /** Where an event stands in the ledger's containers. */
  datatype Place = TxPlace(tx: nat, n: nat) | OpPlace(tx: nat, op: nat, n: nat)

  predicate Exists(metas: seq<TxMeta>, p: Place)
  {
    && p.tx < |metas|
    && var c := ContainersOf(metas[p.tx]);
       if p.TxPlace? then p.n < |c.transaction| else p.op < |c.operations| && p.n < |c.operations[p.op]|
  }

  function StageAt(metas: seq<TxMeta>, p: Place): Stage
    requires Exists(metas, p) && p.TxPlace?
  {
    ContainersOf(metas[p.tx]).transaction[p.n].stage
  }

  /** The event number of a transaction-level event: its stage's events ahead of it, in the ledger or in its transaction. */
  function Number(metas: seq<TxMeta>, p: Place): nat
    requires Exists(metas, p) && p.TxPlace?
  {
    var stage := StageAt(metas, p);
    (if stage == AfterTx then 0 else CountBefore(metas, p.tx, stage)) + Count(ContainersOf(metas[p.tx]).transaction[..p.n], stage)
  }

  function IdAt(ledger: nat, metas: seq<TxMeta>, p: Place): EventId
    requires Exists(metas, p)
  {
    if p.OpPlace? then EventId(ledger, p.tx + 1, p.op, p.n)
    else
      match StageAt(metas, p)
      case BeforeAllTxs => EventId(ledger, 0, 0, Number(metas, p))
      case AfterAllTxs => EventId(ledger, 0xF_FFFF, 0, Number(metas, p))
      case AfterTx => EventId(ledger, p.tx + 1, 0xFFF, Number(metas, p))
  }

  function OriginAt(metas: seq<TxMeta>, p: Place): Origin
    requires Exists(metas, p)
  {
    if p.OpPlace? then Operation(p.op) else Transaction(StageAt(metas, p))
  }

  function BodyAt(metas: seq<TxMeta>, p: Place): Event
    requires Exists(metas, p)
  {
    var c := ContainersOf(metas[p.tx]);
    if p.OpPlace? then c.operations[p.op][p.n] else c.transaction[p.n].event
  }

  function OpPlaces(tx: nat, ops: seq<seq<Event>>, op: nat): seq<Place>
    decreases |ops|
  {
    if ops == [] then [] else seq(|ops[0]|, n requires 0 <= n < |ops[0]| => OpPlace(tx, op, n)) + OpPlaces(tx, ops[1..], op + 1)
  }

  /** The places of one transaction, in the order its events come out. */
  function PlacesOf(metas: seq<TxMeta>, tx: nat): seq<Place>
    requires tx < |metas|
  {
    var c := ContainersOf(metas[tx]);
    seq(|c.transaction|, n requires 0 <= n < |c.transaction| => TxPlace(tx, n)) + OpPlaces(tx, c.operations, 0)
  }

  lemma {:induction false} TxLevelAt(ledger: nat, order: nat, events: seq<TxEvent>, c: Counters, n: nat)
    requires n < |events|
    ensures |TxLevel(ledger, order, events, c)| == |events|
    ensures TxLevel(ledger, order, events, c)[n]
         == ExtractedEvent(TxLevelId(ledger, order, events[n].stage, BumpAll(c, events[..n])), Transaction(events[n].stage), events[n].event)
    decreases |events|
  {
    if n == 0 {
      if |events| > 1 { TxLevelAt(ledger, order, events[1..], Bump(c, events[0].stage), 0); }
    } else {
      assert events[..n][0] == events[0] && events[..n][1..] == events[1..][..n - 1];
      TxLevelAt(ledger, order, events[1..], Bump(c, events[0].stage), n - 1);
    }
  }

  lemma {:induction false} OpLevelAt(ledger: nat, tx: nat, ops: seq<seq<Event>>, op: nat)
    ensures var out, places := OpLevel(ledger, tx + 1, ops, op), OpPlaces(tx, ops, op);
            && |out| == |places|
            && forall k :: 0 <= k < |out| ==>
                 && places[k].OpPlace? && places[k].tx == tx && op <= places[k].op < op + |ops|
                 && places[k].n < |ops[places[k].op - op]|
                 && out[k] == ExtractedEvent(EventId(ledger, tx + 1, places[k].op, places[k].n), Operation(places[k].op),
                                             ops[places[k].op - op][places[k].n])
    decreases |ops|
  {
    if ops != [] {
      OpLevelAt(ledger, tx, ops[1..], op + 1);
      assert forall i :: 0 <= i < |ops[1..]| ==> ops[1..][i] == ops[i + 1];
    }
  }

  /** What random access returns for a transaction is, place by place, the event there under its id. */
  lemma ExtractedAtPlaces(ledger: nat, metas: seq<TxMeta>, tx: nat)
    requires tx < |metas|
    ensures var out := TxPass(ledger, tx + 1, metas[tx], CountBefore(metas, tx, BeforeAllTxs), CountBefore(metas, tx, AfterAllTxs));
            && |out| == |PlacesOf(metas, tx)|
            && forall k :: 0 <= k < |out| ==>
                 && Exists(metas, PlacesOf(metas, tx)[k])
                 && out[k].id == IdAt(ledger, metas, PlacesOf(metas, tx)[k])
                 && out[k].origin == OriginAt(metas, PlacesOf(metas, tx)[k])
                 && out[k].body == BodyAt(metas, PlacesOf(metas, tx)[k])
  {
    hide OpPlaces, OpLevel, TxLevel, BumpAll, Count, CountBefore;
    var c := ContainersOf(metas[tx]);
    var start := Counters(CountBefore(metas, tx, BeforeAllTxs), CountBefore(metas, tx, AfterAllTxs), 0);
    var txLevel := TxLevel(ledger, tx + 1, c.transaction, start);
    OpLevelAt(ledger, tx, c.operations, 0);
    assert |txLevel| == |c.transaction| by {
      if c.transaction == [] { EmptyTxLevel(ledger, tx + 1, start); } else { TxLevelAt(ledger, tx + 1, c.transaction, start, 0); }
    }
    forall k | 0 <= k < |c.transaction|
      ensures txLevel[k].id == IdAt(ledger, metas, TxPlace(tx, k))
      ensures txLevel[k].origin == OriginAt(metas, TxPlace(tx, k)) && txLevel[k].body == BodyAt(metas, TxPlace(tx, k))
    {
      TxLevelAt(ledger, tx + 1, c.transaction, start, k);
      BumpCounts(start, c.transaction[..k]);
    }
  }

  lemma EmptyTxLevel(ledger: nat, order: nat, c: Counters)
    ensures TxLevel(ledger, order, [], c) == []
  {
  }

  /** Before everything, in some transaction, or after everything. */
  function Phase(metas: seq<TxMeta>, p: Place): nat
    requires Exists(metas, p)
  {
    if p.OpPlace? then 1
    else match StageAt(metas, p) case BeforeAllTxs => 0 case AfterTx => 1 case AfterAllTxs => 2
  }

  /** Execution order: all BeforeAllTxs events; then each transaction's operations and its AfterTx events; then
      all AfterAllTxs events. */
  predicate Precedes(metas: seq<TxMeta>, a: Place, b: Place)
    requires Exists(metas, a) && Exists(metas, b)
  {
    Phase(metas, a) < Phase(metas, b)
    || (Phase(metas, a) == Phase(metas, b)
        && (a.tx < b.tx
            || (a.tx == b.tx
                && (|| (a.OpPlace? && b.TxPlace?)
                    || (a.OpPlace? && b.OpPlace? && (a.op < b.op || (a.op == b.op && a.n < b.n)))
                    || (a.TxPlace? && b.TxPlace? && a.n < b.n)))))
  }

  /** The sizes the layout is made for. */
  ghost predicate WithinLayout(metas: seq<TxMeta>)
  {
    && |metas| < AFTER_ALL_TXS
    && forall i :: 0 <= i < |metas| ==> |ContainersOf(metas[i]).operations| <= AFTER_TX_OPERATION
  }

  lemma {:induction false} CountGrows(events: seq<TxEvent>, n: nat, m: nat, stage: Stage)
    requires n <= m <= |events|
    ensures Count(events[..n], stage) <= Count(events[..m], stage)
    ensures n < m && events[n].stage == stage ==> Count(events[..n], stage) < Count(events[..m], stage)
    decreases |events|
  {
    if m > 0 {
      assert events[..m][0] == events[0] && events[..m][1..] == events[1..][..m - 1];
      if n > 0 {
        assert events[..n][0] == events[0] && events[..n][1..] == events[1..][..n - 1];
        CountGrows(events[1..], n - 1, m - 1, stage);
      }
    }
  }

  lemma {:induction false} CountBeforeGrows(metas: seq<TxMeta>, i: nat, j: nat, stage: Stage)
    requires i <= j <= |metas|
    ensures CountBefore(metas, i, stage) <= CountBefore(metas, j, stage)
    ensures i < j ==> CountBefore(metas, i, stage) + Count(ContainersOf(metas[i]).transaction, stage) <= CountBefore(metas, j, stage)
    decreases j
  {
    if i < j { CountBeforeGrows(metas, i, j - 1, stage); }
  }

  /** Counters number a stage's events in container order. */
  lemma NumbersGrow(metas: seq<TxMeta>, a: Place, b: Place)
    requires Exists(metas, a) && Exists(metas, b) && a.TxPlace? && b.TxPlace?
    requires StageAt(metas, a) == StageAt(metas, b) && (StageAt(metas, a) == AfterTx ==> a.tx == b.tx)
    ensures Number(metas, a) < Number(metas, b) <==> a.tx < b.tx || (a.tx == b.tx && a.n < b.n)
  {
    hide Count, CountBefore;
    NumberBelow(metas, a, b);
    NumberBelow(metas, b, a);
  }

  lemma NumberBelow(metas: seq<TxMeta>, a: Place, b: Place)
    requires Exists(metas, a) && Exists(metas, b) && a.TxPlace? && b.TxPlace?
    requires StageAt(metas, a) == StageAt(metas, b) && (StageAt(metas, a) == AfterTx ==> a.tx == b.tx)
    ensures a.tx < b.tx || (a.tx == b.tx && a.n < b.n) ==> Number(metas, a) < Number(metas, b)
  {
    hide Count, CountBefore;
    var stage := StageAt(metas, a);
    var events := ContainersOf(metas[a.tx]).transaction;
    if a.tx < b.tx {
      CountGrows(events, a.n, |events|, stage);
      assert events[..|events|] == events;
      CountBeforeGrows(metas, a.tx, b.tx, stage);
    } else if a.tx == b.tx && a.n < b.n {
      CountGrows(events, a.n, b.n, stage);
    }
  }

  /** Sorting a ledger's events by id puts them in execution order. */
  lemma IdOrderIsExecutionOrder(ledger: nat, metas: seq<TxMeta>, a: Place, b: Place)
    requires WithinLayout(metas) && Exists(metas, a) && Exists(metas, b)
    ensures IdLess(IdAt(ledger, metas, a), IdAt(ledger, metas, b)) <==> Precedes(metas, a, b)
  {
    hide Toid, Number, CountBefore, Count;
    ToidOrder(IdAt(ledger, metas, a), IdAt(ledger, metas, b));
    if a.TxPlace? && b.TxPlace? && StageAt(metas, a) == StageAt(metas, b) && (StageAt(metas, a) == AfterTx ==> a.tx == b.tx) {
      NumbersGrow(metas, a, b);
    }
  }

  /** No two events of a ledger share an id. */
  lemma IdsDistinct(ledger: nat, metas: seq<TxMeta>, a: Place, b: Place)
    requires WithinLayout(metas) && Exists(metas, a) && Exists(metas, b) && a != b
    ensures IdAt(ledger, metas, a) != IdAt(ledger, metas, b)
  {
    hide Toid, Number, IdAt;
    assert Precedes(metas, a, b) || Precedes(metas, b, a);
    IdOrderIsExecutionOrder(ledger, metas, a, b);
    IdOrderIsExecutionOrder(ledger, metas, b, a);
  }
}
