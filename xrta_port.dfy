/** One port of the `net_xrta` DPDK poll-mode driver `rte_eth_xrta.c`: its private
    `pmd_internals` (the per-queue records and the started flag) together with the
    fields of its `rte_eth_dev_data` that the driver's callbacks read or write. */
module XrtaPort {
  import opened Words
  import opened Wrappers

  /** Compute units on one U50 card, and the queue pairs they need: one tx and two rx
      queues per kernel. */
  const NKERN: nat := 14
  const XRTA_MAX_QUEUE_PER_PORT: nat := 42

  /** The number of per-queue counters in `struct rte_eth_stats` (DPDK's default
      build configuration). */
  const RTE_ETHDEV_QUEUE_STAT_CNTRS: nat := 16

  const UINT32_MAX: nat := 0xffff_ffff
  const TWO_64: nat := 0x1_0000_0000_0000_0000

  lemma QueueBudget()
    ensures XRTA_MAX_QUEUE_PER_PORT == NKERN * 3
  {
  }

  /** `struct pmd_queue_stats`. */
  datatype QueueStats = QueueStats(pkts: U64, bytes: U64)

  const NO_TRAFFIC: QueueStats := QueueStats(0, 0)

  /** `struct pmd_queue`: whether its `internals` back-pointer has been set to the
      port's internals, its mbuf pool (a pool identity, `None` for `NULL`) and its
      counters. */
  datatype PmdQueue = PmdQueue(hasInternals: bool, mbPool: Option<nat>, rx: QueueStats, tx: QueueStats)

  /** A queue of the zero-filled private area the port is created with. */
  const EMPTY_QUEUE: PmdQueue := PmdQueue(false, None, NO_TRAFFIC, NO_TRAFFIC)

  /** `struct rte_eth_stats` as far as this driver fills it in. */
  datatype EthStats = EthStats(ipackets: U64, opackets: U64, ibytes: U64, obytes: U64,
                               qIpackets: seq<U64>, qOpackets: seq<U64>,
                               qIbytes: seq<U64>, qObytes: seq<U64>)
  {
    predicate WellFormed()
    {
      |qIpackets| == RTE_ETHDEV_QUEUE_STAT_CNTRS && |qOpackets| == RTE_ETHDEV_QUEUE_STAT_CNTRS &&
      |qIbytes| == RTE_ETHDEV_QUEUE_STAT_CNTRS && |qObytes| == RTE_ETHDEV_QUEUE_STAT_CNTRS
    }
  }

  /** `struct rte_eth_dev_info` as far as `dev_infos_get` fills it in. */
  datatype DevInfo = DevInfo(maxMacAddrs: nat, maxRxPktlen: nat, maxRxQueues: nat,
                             maxTxQueues: nat, minRxBufsize: nat)

  /** `eth_xrta_dev_info`: one MAC address, packets of any 32-bit length, and as many
      rx and tx queues as the port has queue records: three per kernel. */
  function DeviceInfo(): (r: DevInfo)
    ensures r.maxRxQueues == XRTA_MAX_QUEUE_PER_PORT && r.maxTxQueues == XRTA_MAX_QUEUE_PER_PORT
    ensures r.maxRxQueues == NKERN * 3
    ensures r.maxMacAddrs == 1 && r.maxRxPktlen == UINT32_MAX && r.minRxBufsize == 0
  {
    DevInfo(1, UINT32_MAX, XRTA_MAX_QUEUE_PER_PORT, XRTA_MAX_QUEUE_PER_PORT, 0)
  }

  /** `RTE_MIN(RTE_ETHDEV_QUEUE_STAT_CNTRS, nb_queues)`: the queues `stats_get` reports. */
  function NumStats(nbQueues: nat): (r: nat)
    ensures r <= RTE_ETHDEV_QUEUE_STAT_CNTRS && r <= nbQueues
    ensures r == RTE_ETHDEV_QUEUE_STAT_CNTRS || r == nbQueues
  {
    if RTE_ETHDEV_QUEUE_STAT_CNTRS < nbQueues then RTE_ETHDEV_QUEUE_STAT_CNTRS else nbQueues
  }

  /** The exact sum of a sequence of counters. */
  function Sum(s: seq<U64>): nat
  {
    if |s| == 0 then 0 else Sum(s[..|s| - 1]) + s[|s| - 1]
  }

  /** Adding modulo 2^64 at every step gives the exact sum modulo 2^64. */
  lemma {:induction false} SumStep(s: seq<U64>, i: nat, acc: U64)
    requires i < |s| && acc == Sum(s[..i]) % TWO_64
    ensures (acc + s[i]) % TWO_64 == Sum(s[..i + 1]) % TWO_64
  {
    assert s[..i + 1][..i] == s[..i];
    var a := Sum(s[..i]);
    assert a == TWO_64 * (a / TWO_64) + acc;
    assert a + s[i] == TWO_64 * (a / TWO_64) + (acc + s[i]);
  }

  /** Counters that are all zero add up to zero. */
  lemma {:induction false} SumOfZeros(s: seq<U64>)
    requires forall i :: 0 <= i < |s| ==> s[i] == 0
    ensures Sum(s) == 0
  {
    if |s| > 0 {
      SumOfZeros(s[..|s| - 1]);
    }
  }

  class Port {
    // pmd_internals
    const portId: nat
    var isXrtaStarted: int
    var noRequestThread: int
    const rxQueues: array<PmdQueue>
    const txQueues: array<PmdQueue>
    // rte_eth_dev_data
    var nbRxQueues: nat
    var nbTxQueues: nat
    /** `data->rx_queues[k] != NULL`: setup only ever stores `&internals->rx_queues[k]`
        there, so a set entry always names the port's own queue record k. */
    const dataRxQueues: array<bool>
    const dataTxQueues: array<bool>
    var linkStatus: int
    var devStarted: int
    var promiscuous: int
    var allMulticast: int
    /** `data->mac_addrs != NULL`. */
    var macAddrsSet: bool

    ghost predicate Valid()
      reads this
    {
      rxQueues.Length == XRTA_MAX_QUEUE_PER_PORT && txQueues.Length == XRTA_MAX_QUEUE_PER_PORT &&
      dataRxQueues.Length == XRTA_MAX_QUEUE_PER_PORT && dataTxQueues.Length == XRTA_MAX_QUEUE_PER_PORT &&
      rxQueues != txQueues && dataRxQueues != dataTxQueues &&
      nbRxQueues <= XRTA_MAX_QUEUE_PER_PORT && nbTxQueues <= XRTA_MAX_QUEUE_PER_PORT &&
      (isXrtaStarted == 0 || isXrtaStarted == 1)
    }

    /** The successful path of `eth_xrta_create`: the zero-filled private area, all 42
        rx and tx queues, the fixed link (down), a MAC address, promiscuous and
        all-multicast on, and the `no_request_thread` argument. */
    constructor(portId: nat, noRequestThread: int)
      ensures Valid()
      ensures this.portId == portId && this.noRequestThread == noRequestThread
      ensures nbRxQueues == XRTA_MAX_QUEUE_PER_PORT && nbTxQueues == XRTA_MAX_QUEUE_PER_PORT
      ensures isXrtaStarted == 0 && linkStatus == 0 && devStarted == 0
      ensures promiscuous == 1 && allMulticast == 1 && macAddrsSet
      ensures forall k :: 0 <= k < XRTA_MAX_QUEUE_PER_PORT ==>
        rxQueues[k] == EMPTY_QUEUE && txQueues[k] == EMPTY_QUEUE && !dataRxQueues[k] && !dataTxQueues[k]
      ensures fresh(rxQueues) && fresh(txQueues) && fresh(dataRxQueues) && fresh(dataTxQueues)
    {
      this.portId := portId;
      isXrtaStarted := 0;
      rxQueues := new PmdQueue[XRTA_MAX_QUEUE_PER_PORT](_ => EMPTY_QUEUE);
      txQueues := new PmdQueue[XRTA_MAX_QUEUE_PER_PORT](_ => EMPTY_QUEUE);
      dataRxQueues := new bool[XRTA_MAX_QUEUE_PER_PORT](_ => false);
      dataTxQueues := new bool[XRTA_MAX_QUEUE_PER_PORT](_ => false);
      nbRxQueues := XRTA_MAX_QUEUE_PER_PORT;
      nbTxQueues := XRTA_MAX_QUEUE_PER_PORT;
      linkStatus := 0;
      devStarted := 0;
      macAddrsSet := true;
      promiscuous := 1;
      allMulticast := 1;
      this.noRequestThread := noRequestThread;
    }

    /** Every queue `stats_get` or `stats_reset` dereferences has been set up. */
    ghost predicate RxSetUp(n: nat)
      reads this, dataRxQueues
    {
      n <= dataRxQueues.Length && forall k :: 0 <= k < n ==> dataRxQueues[k]
    }

    ghost predicate TxSetUp(n: nat)
      reads this, dataTxQueues
    {
      n <= dataTxQueues.Length && forall k :: 0 <= k < n ==> dataTxQueues[k]
    }

    /** `eth_xrta_dev_start`: marks the port started and its link up. Starting again
        changes nothing more, whatever the state was. */
    method DevStart() returns (r: int)
      requires Valid()
      modifies this
      ensures Valid()
      ensures r == 0 && isXrtaStarted == 1 && linkStatus == 1
      ensures devStarted == old(devStarted) && noRequestThread == old(noRequestThread)
      ensures nbRxQueues == old(nbRxQueues) && nbTxQueues == old(nbTxQueues) && macAddrsSet == old(macAddrsSet)
      ensures promiscuous == old(promiscuous) && allMulticast == old(allMulticast)
    {
      if isXrtaStarted == 0 {
        isXrtaStarted := 1;
      }
      linkStatus := 1;
      return 0;
    }

    /** `eth_xrta_dev_stop`: link down and not started; the driver's own
        `is_xrta_started` stays as it was. */
    method DevStop() returns (r: int)
      requires Valid()
      modifies this
      ensures Valid()
      ensures r == 0 && linkStatus == 0 && devStarted == 0
      ensures isXrtaStarted == old(isXrtaStarted) && noRequestThread == old(noRequestThread)
      ensures nbRxQueues == old(nbRxQueues) && nbTxQueues == old(nbTxQueues) && macAddrsSet == old(macAddrsSet)
      ensures promiscuous == old(promiscuous) && allMulticast == old(allMulticast)
    {
      linkStatus := 0;
      devStarted := 0;
      return 0;
    }

    /** `eth_xrta_close`: nothing in a secondary process; in the primary, stops the port
        and drops its MAC address pointer. */
    method Close(primary: bool) returns (r: int)
      requires Valid()
      modifies this
      ensures Valid()
      ensures r == 0
      ensures !primary ==> linkStatus == old(linkStatus) && devStarted == old(devStarted) && macAddrsSet == old(macAddrsSet)
      ensures primary ==> linkStatus == 0 && devStarted == 0 && !macAddrsSet
      ensures isXrtaStarted == old(isXrtaStarted) && noRequestThread == old(noRequestThread)
      ensures nbRxQueues == old(nbRxQueues) && nbTxQueues == old(nbTxQueues)
      ensures promiscuous == old(promiscuous) && allMulticast == old(allMulticast)
    {
      if !primary {
        return 0;
      }
      r := DevStop();
      macAddrsSet := false;
    }

    /** `eth_xrta_rx_queue_setup(dev, k, ..., mb_pool)`: queue record k gets the port's
        internals and the pool, and `data->rx_queues[k]` points at it; no other queue and
        no counter changes. The ethdev layer only passes `k < nb_rx_queues`. */
    method RxQueueSetup(k: nat, mbPool: nat) returns (r: int)
      requires Valid() && k < nbRxQueues
      modifies rxQueues, dataRxQueues
      ensures r == 0
      ensures rxQueues[k] == old(rxQueues[k]).(hasInternals := true, mbPool := Some(mbPool))
      ensures dataRxQueues[k]
      ensures forall j :: 0 <= j < rxQueues.Length && j != k ==>
        rxQueues[j] == old(rxQueues[j]) && dataRxQueues[j] == old(dataRxQueues[j])
    {
      var q := rxQueues[k];
      q := q.(hasInternals := true);
      q := q.(mbPool := Some(mbPool));
      rxQueues[k] := q;
      dataRxQueues[k] := true;
      return 0;
    }

    /** `eth_xrta_tx_queue_setup(dev, k, ...)`: as for rx, without a pool. */
    method TxQueueSetup(k: nat) returns (r: int)
      requires Valid() && k < nbTxQueues
      modifies txQueues, dataTxQueues
      ensures r == 0
      ensures txQueues[k] == old(txQueues[k]).(hasInternals := true)
      ensures dataTxQueues[k]
      ensures forall j :: 0 <= j < txQueues.Length && j != k ==>
        txQueues[j] == old(txQueues[j]) && dataTxQueues[j] == old(dataTxQueues[j])
    {
      var q := txQueues[k];
      q := q.(hasInternals := true);
      txQueues[k] := q;
      dataTxQueues[k] := true;
      return 0;
    }

    /** `eth_xrta_rx(q, bufs, nb_bufs)` for queue record `q` (`None` for `NULL`): no
        packet is ever received, and adding the zero received to `rx.pkts` leaves every
        queue as it was. */
    method Rx(q: Option<nat>, bufsNull: bool, nbBufs: nat) returns (r: nat)
      requires Valid() && (q.Some? ==> q.value < XRTA_MAX_QUEUE_PER_PORT)
      modifies rxQueues
      ensures r == 0
      ensures forall j :: 0 <= j < rxQueues.Length ==> rxQueues[j] == old(rxQueues[j])
    {
      if q.None? || bufsNull || nbBufs == 0 {
        return 0;
      }
      var k := q.value;
      var nbPkts := 0;
      var stats := rxQueues[k].rx;
      rxQueues[k] := rxQueues[k].(rx := stats.(pkts := (stats.pkts + nbPkts) % TWO_64));
      return nbPkts;
    }

    /** `eth_xrta_tx(q, bufs, nb_bufs)` for queue record `q`: frees the `nb_bufs`
        buffers in order (`freed`), unless `q` or `bufs` is `NULL`, reports none sent,
        and leaves every queue as it was. */
    method Tx(q: Option<nat>, bufs: Option<seq<nat>>, nbBufs: nat) returns (r: nat, freed: seq<nat>)
      requires Valid() && (q.Some? ==> q.value < XRTA_MAX_QUEUE_PER_PORT)
      requires bufs.Some? ==> nbBufs <= |bufs.value|
      modifies txQueues
      ensures r == 0
      ensures freed == if q.None? || bufs.None? then [] else bufs.value[..nbBufs]
      ensures forall j :: 0 <= j < txQueues.Length ==> txQueues[j] == old(txQueues[j])
    {
      freed := [];
      var nbPkts := 0;
      if q.None? || bufs.None? {
        return 0, freed;
      }
      var b := bufs.value;
      for i := 0 to nbBufs
        invariant freed == b[..i]
      {
        freed := freed + [b[i]];
      }
      var k := q.value;
      var stats := txQueues[k].tx;
      txQueues[k] := txQueues[k].(tx := stats.(pkts := (stats.pkts + nbPkts) % TWO_64));
      return nbPkts, freed;
    }

    /** `eth_xrta_stats_get(dev, stats)`: each of the first `NumStats(nb_rx_queues)`
        per-queue slots receives that rx queue's counters, the totals are the sums of
        those slots modulo 2^64 (`unsigned long` is 64 bits wide), the tx side likewise,
        and the remaining per-queue slots keep the caller's values. */
    method StatsGet(stats: EthStats) returns (r: EthStats)
      requires Valid() && stats.WellFormed()
      requires RxSetUp(NumStats(nbRxQueues)) && TxSetUp(NumStats(nbTxQueues))
      ensures r.WellFormed()
      ensures forall k :: 0 <= k < NumStats(nbRxQueues) ==>
        r.qIpackets[k] == rxQueues[k].rx.pkts && r.qIbytes[k] == rxQueues[k].rx.bytes
      ensures forall k :: NumStats(nbRxQueues) <= k < RTE_ETHDEV_QUEUE_STAT_CNTRS ==>
        r.qIpackets[k] == stats.qIpackets[k] && r.qIbytes[k] == stats.qIbytes[k]
      ensures forall k :: 0 <= k < NumStats(nbTxQueues) ==>
        r.qOpackets[k] == txQueues[k].tx.pkts && r.qObytes[k] == txQueues[k].tx.bytes
      ensures forall k :: NumStats(nbTxQueues) <= k < RTE_ETHDEV_QUEUE_STAT_CNTRS ==>
        r.qOpackets[k] == stats.qOpackets[k] && r.qObytes[k] == stats.qObytes[k]
      ensures r.ipackets == Sum(r.qIpackets[..NumStats(nbRxQueues)]) % TWO_64
      ensures r.ibytes == Sum(r.qIbytes[..NumStats(nbRxQueues)]) % TWO_64
      ensures r.opackets == Sum(r.qOpackets[..NumStats(nbTxQueues)]) % TWO_64
      ensures r.obytes == Sum(r.qObytes[..NumStats(nbTxQueues)]) % TWO_64
    {
      var qIpackets, qIbytes, rxPacketsTotal, rxBytesTotal := GatherRx(stats.qIpackets, stats.qIbytes);
      var qOpackets, qObytes, txPacketsTotal, txBytesTotal := GatherTx(stats.qOpackets, stats.qObytes);
      r := EthStats(rxPacketsTotal, txPacketsTotal, rxBytesTotal, txBytesTotal,
                    qIpackets, qOpackets, qIbytes, qObytes);
    }

    /** The rx loop of `stats_get`. */
    method GatherRx(qIpackets0: seq<U64>, qIbytes0: seq<U64>)
      returns (qIpackets: seq<U64>, qIbytes: seq<U64>, pktsTotal: U64, bytesTotal: U64)
      requires Valid() && RxSetUp(NumStats(nbRxQueues))
      requires |qIpackets0| == RTE_ETHDEV_QUEUE_STAT_CNTRS && |qIbytes0| == RTE_ETHDEV_QUEUE_STAT_CNTRS
      ensures |qIpackets| == RTE_ETHDEV_QUEUE_STAT_CNTRS && |qIbytes| == RTE_ETHDEV_QUEUE_STAT_CNTRS
      ensures forall k :: 0 <= k < NumStats(nbRxQueues) ==>
        qIpackets[k] == rxQueues[k].rx.pkts && qIbytes[k] == rxQueues[k].rx.bytes
      ensures forall k :: NumStats(nbRxQueues) <= k < RTE_ETHDEV_QUEUE_STAT_CNTRS ==>
        qIpackets[k] == qIpackets0[k] && qIbytes[k] == qIbytes0[k]
      ensures pktsTotal == Sum(qIpackets[..NumStats(nbRxQueues)]) % TWO_64
      ensures bytesTotal == Sum(qIbytes[..NumStats(nbRxQueues)]) % TWO_64
    {
      var numStats := NumStats(nbRxQueues);
      qIpackets, qIbytes, pktsTotal, bytesTotal := qIpackets0, qIbytes0, 0, 0;
      for i := 0 to numStats
        invariant |qIpackets| == RTE_ETHDEV_QUEUE_STAT_CNTRS && |qIbytes| == RTE_ETHDEV_QUEUE_STAT_CNTRS
        invariant forall k :: 0 <= k < i ==> qIpackets[k] == rxQueues[k].rx.pkts && qIbytes[k] == rxQueues[k].rx.bytes
        invariant forall k :: i <= k < RTE_ETHDEV_QUEUE_STAT_CNTRS ==> qIpackets[k] == qIpackets0[k] && qIbytes[k] == qIbytes0[k]
        invariant pktsTotal == Sum(qIpackets[..i]) % TWO_64 && bytesTotal == Sum(qIbytes[..i]) % TWO_64
      {
        assert dataRxQueues[i];
        var q := rxQueues[i];
        ghost var p0, b0 := qIpackets, qIbytes;
        qIpackets := qIpackets[i := q.rx.pkts];
        qIbytes := qIbytes[i := q.rx.bytes];
        assert qIpackets[..i] == p0[..i] && qIbytes[..i] == b0[..i];
        SumStep(qIpackets, i, pktsTotal);
        SumStep(qIbytes, i, bytesTotal);
        pktsTotal := (pktsTotal + qIpackets[i]) % TWO_64;
        bytesTotal := (bytesTotal + qIbytes[i]) % TWO_64;
      }
    }

    /** The tx loop of `stats_get`. */
    method GatherTx(qOpackets0: seq<U64>, qObytes0: seq<U64>)
      returns (qOpackets: seq<U64>, qObytes: seq<U64>, pktsTotal: U64, bytesTotal: U64)
      requires Valid() && TxSetUp(NumStats(nbTxQueues))
      requires |qOpackets0| == RTE_ETHDEV_QUEUE_STAT_CNTRS && |qObytes0| == RTE_ETHDEV_QUEUE_STAT_CNTRS
      ensures |qOpackets| == RTE_ETHDEV_QUEUE_STAT_CNTRS && |qObytes| == RTE_ETHDEV_QUEUE_STAT_CNTRS
      ensures forall k :: 0 <= k < NumStats(nbTxQueues) ==>
        qOpackets[k] == txQueues[k].tx.pkts && qObytes[k] == txQueues[k].tx.bytes
      ensures forall k :: NumStats(nbTxQueues) <= k < RTE_ETHDEV_QUEUE_STAT_CNTRS ==>
        qOpackets[k] == qOpackets0[k] && qObytes[k] == qObytes0[k]
      ensures pktsTotal == Sum(qOpackets[..NumStats(nbTxQueues)]) % TWO_64
      ensures bytesTotal == Sum(qObytes[..NumStats(nbTxQueues)]) % TWO_64
    {
      var numStats := NumStats(nbTxQueues);
      qOpackets, qObytes, pktsTotal, bytesTotal := qOpackets0, qObytes0, 0, 0;
      for i := 0 to numStats
        invariant |qOpackets| == RTE_ETHDEV_QUEUE_STAT_CNTRS && |qObytes| == RTE_ETHDEV_QUEUE_STAT_CNTRS
        invariant forall k :: 0 <= k < i ==> qOpackets[k] == txQueues[k].tx.pkts && qObytes[k] == txQueues[k].tx.bytes
        invariant forall k :: i <= k < RTE_ETHDEV_QUEUE_STAT_CNTRS ==> qOpackets[k] == qOpackets0[k] && qObytes[k] == qObytes0[k]
        invariant pktsTotal == Sum(qOpackets[..i]) % TWO_64 && bytesTotal == Sum(qObytes[..i]) % TWO_64
      {
        assert dataTxQueues[i];
        var q := txQueues[i];
        ghost var p0, b0 := qOpackets, qObytes;
        qOpackets := qOpackets[i := q.tx.pkts];
        qObytes := qObytes[i := q.tx.bytes];
        assert qOpackets[..i] == p0[..i] && qObytes[..i] == b0[..i];
        SumStep(qOpackets, i, pktsTotal);
        SumStep(qObytes, i, bytesTotal);
        pktsTotal := (pktsTotal + qOpackets[i]) % TWO_64;
        bytesTotal := (bytesTotal + qObytes[i]) % TWO_64;
      }
    }

    /** `eth_xrta_stats_reset`: the rx counters of the first `nb_rx_queues` queues and
        the tx counters of the first `nb_tx_queues` become 0; nothing else changes. */
    method StatsReset() returns (r: int)
      requires Valid() && RxSetUp(nbRxQueues) && TxSetUp(nbTxQueues)
      modifies rxQueues, txQueues
      ensures r == 0
      ensures forall k :: 0 <= k < rxQueues.Length ==>
        rxQueues[k] == if k < nbRxQueues then old(rxQueues[k]).(rx := NO_TRAFFIC) else old(rxQueues[k])
      ensures forall k :: 0 <= k < txQueues.Length ==>
        txQueues[k] == if k < nbTxQueues then old(txQueues[k]).(tx := NO_TRAFFIC) else old(txQueues[k])
    {
      ResetRx();
      ResetTx();
      return 0;
    }

    /** The rx loop of `stats_reset`. */
    method ResetRx()
      requires Valid() && RxSetUp(nbRxQueues)
      modifies rxQueues
      ensures forall k :: 0 <= k < rxQueues.Length ==>
        rxQueues[k] == if k < nbRxQueues then old(rxQueues[k]).(rx := NO_TRAFFIC) else old(rxQueues[k])
    {
      for i := 0 to nbRxQueues
        invariant forall k :: 0 <= k < rxQueues.Length ==>
          rxQueues[k] == if k < i then old(rxQueues[k]).(rx := NO_TRAFFIC) else old(rxQueues[k])
      {
        assert dataRxQueues[i];
        var q := rxQueues[i];
        q := q.(rx := q.rx.(pkts := 0));
        q := q.(rx := q.rx.(bytes := 0));
        rxQueues[i] := q;
      }
    }

    /** The tx loop of `stats_reset`. */
    method ResetTx()
      requires Valid() && TxSetUp(nbTxQueues)
      modifies txQueues
      ensures forall k :: 0 <= k < txQueues.Length ==>
        txQueues[k] == if k < nbTxQueues then old(txQueues[k]).(tx := NO_TRAFFIC) else old(txQueues[k])
    {
      for i := 0 to nbTxQueues
        invariant forall k :: 0 <= k < txQueues.Length ==>
          txQueues[k] == if k < i then old(txQueues[k]).(tx := NO_TRAFFIC) else old(txQueues[k])
      {
        assert dataTxQueues[i];
        var q := txQueues[i];
        q := q.(tx := q.tx.(pkts := 0));
        q := q.(tx := q.tx.(bytes := 0));
        txQueues[i] := q;
      }
    }
  }

  /** `stats_reset` followed by `stats_get` reports zero in every total and in every
      per-queue slot it fills in. */
  method ResetThenGet(port: Port, stats: EthStats) returns (r: EthStats)
    requires port.Valid() && stats.WellFormed()
    requires port.RxSetUp(port.nbRxQueues) && port.TxSetUp(port.nbTxQueues)
    modifies port.rxQueues, port.txQueues
    ensures r.WellFormed()
    ensures r.ipackets == 0 && r.ibytes == 0 && r.opackets == 0 && r.obytes == 0
    ensures forall k :: 0 <= k < NumStats(port.nbRxQueues) ==> r.qIpackets[k] == 0 && r.qIbytes[k] == 0
    ensures forall k :: 0 <= k < NumStats(port.nbTxQueues) ==> r.qOpackets[k] == 0 && r.qObytes[k] == 0
  {
    var _ := port.StatsReset();
    r := port.StatsGet(stats);
    var nr, nt := NumStats(port.nbRxQueues), NumStats(port.nbTxQueues);
    SumOfZeros(r.qIpackets[..nr]);
    SumOfZeros(r.qIbytes[..nr]);
    SumOfZeros(r.qOpackets[..nt]);
    SumOfZeros(r.qObytes[..nt]);
  }
}
