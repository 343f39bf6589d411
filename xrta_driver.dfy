/** The driver-wide part of `rte_eth_xrta.c`: the `no_request_thread` device argument,
    the count `is_xrta_initialized` of ports probed in the primary process, and the
    probe and remove entry points that create and tear down a port. */
module XrtaDriver {
  import opened Wrappers
  import opened XrtaPort

  const NO_REQUEST_THREAD_ARG: string := "no_request_thread"

  /** `struct eth_xrta_args`. */
  datatype Args = Args(noRequestThread: int)

  /** A parsed `rte_kvargs` list, as its key/value pairs in order. */
  type KvList = seq<(string, string)>

  /** `rte_kvargs_count(kvlist, key)`: how many pairs have this key. */
  function CountKey(kvs: KvList, key: string): nat
  {
    if |kvs| == 0 then 0 else CountKey(kvs[..|kvs| - 1], key) + (if kvs[|kvs| - 1].0 == key then 1 else 0)
  }

  /** Pair i has the key and no other pair has it. */
  predicate UniqueAt(kvs: KvList, key: string, i: nat)
  {
    i < |kvs| && kvs[i].0 == key && forall j :: 0 <= j < |kvs| && j != i ==> kvs[j].0 != key
  }

  lemma {:induction false} CountKeyNone(kvs: KvList, key: string)
    ensures CountKey(kvs, key) == 0 <==> forall j :: 0 <= j < |kvs| ==> kvs[j].0 != key
  {
    if |kvs| > 0 {
      var t := kvs[..|kvs| - 1];
      CountKeyNone(t, key);
      assert forall j :: 0 <= j < |t| ==> t[j] == kvs[j];
    }
  }

  /** The key is counted once exactly when one pair, and only one, has it. */
  lemma {:induction false} CountKeyOnce(kvs: KvList, key: string)
    ensures CountKey(kvs, key) == 1 <==> exists i :: UniqueAt(kvs, key, i)
  {
    if |kvs| > 0 {
      var n := |kvs| - 1;
      var t := kvs[..n];
      assert forall j :: 0 <= j < |t| ==> t[j] == kvs[j];
      CountKeyOnce(t, key);
      CountKeyNone(t, key);
      if kvs[n].0 == key {
        if CountKey(kvs, key) == 1 {
          assert UniqueAt(kvs, key, n);
        }
        if exists i :: UniqueAt(kvs, key, i) {
          var i :| UniqueAt(kvs, key, i);
          assert i == n;
        }
      } else {
        if CountKey(kvs, key) == 1 {
          var i :| UniqueAt(t, key, i);
          assert UniqueAt(kvs, key, i);
        }
        if exists i :: UniqueAt(kvs, key, i) {
          var i :| UniqueAt(kvs, key, i);
          assert UniqueAt(t, key, i);
        }
      }
    } else {
      assert forall i :: !UniqueAt(kvs, key, i);
    }
  }

  /** `eth_xrta_kvargs_process(args, params)`, given what `rte_kvargs_parse` made of
      `params` (`None` when it fails): -1 with `args` untouched when parsing fails;
      otherwise 0, with `no_request_thread` 1 if the key is given exactly once and 0
      in every other case. */
  function KvargsProcess(kvlist: Option<KvList>, args: Args): (r: (int, Args))
    ensures r.0 == 0 <==> kvlist.Some?
    ensures kvlist.None? ==> r.0 == -1 && r.1 == args
    ensures kvlist.Some? ==> (r.1.noRequestThread == 1 <==> exists i :: UniqueAt(kvlist.value, NO_REQUEST_THREAD_ARG, i))
    ensures kvlist.Some? ==> r.1.noRequestThread == 0 || r.1.noRequestThread == 1
  {
    if kvlist.None? then (-1, args)
    else
      var cleared := Args(0);
      CountKeyOnce(kvlist.value, NO_REQUEST_THREAD_ARG);
      if CountKey(kvlist.value, NO_REQUEST_THREAD_ARG) == 1 then (0, cleared.(noRequestThread := 1))
      else (0, cleared)
  }

  /** The driver's global state. */
  class Driver {
    /** `is_xrta_initialized`. */
    var isXrtaInitialized: int

    constructor()
      ensures isXrtaInitialized == 0
    {
      isXrtaInitialized := 0;
    }

    /** `xrta_init()`: always succeeds (there is no KNI library to start) and counts
        one more initialised port. */
    method XrtaInit() returns (r: int)
      modifies this
      ensures r == 0 && isXrtaInitialized == old(isXrtaInitialized) + 1
    {
      isXrtaInitialized := isXrtaInitialized + 1;
      return 0;
    }

    /** `eth_xrta_probe(vdev)`. The calls into the ethdev layer are parameters:
        `attachOk` is the outcome of attaching in a secondary process, `kvlist` what
        `rte_kvargs_parse` made of the device arguments, `allocOk` whether
        `rte_eth_vdev_allocate` found a port (numbered `portId`). In the primary process
        success leaves one more port counted and a new port with the parsed argument;
        every failure leaves the count as it was. */
    method Probe(primary: bool, attachOk: bool, kvlist: Option<KvList>, allocOk: bool, portId: nat)
      returns (ret: int, port: Port?)
      modifies this
      ensures ret == 0 || ret == -1
      ensures !primary ==> (ret == 0 <==> attachOk) && port == null && isXrtaInitialized == old(isXrtaInitialized)
      ensures primary ==> (ret == 0 <==> kvlist.Some? && allocOk)
      ensures primary && ret != 0 ==> port == null && isXrtaInitialized == old(isXrtaInitialized)
      ensures primary && ret == 0 ==> isXrtaInitialized == old(isXrtaInitialized) + 1
      ensures primary && ret == 0 ==> port != null && fresh(port) && port.Valid() && port.portId == portId
      ensures primary && ret == 0 ==>
        port != null && port.noRequestThread == KvargsProcess(kvlist, Args(0)).1.noRequestThread
      ensures primary && ret == 0 ==>
        port != null && port.isXrtaStarted == 0 && port.linkStatus == 0 &&
        port.nbRxQueues == XRTA_MAX_QUEUE_PER_PORT && port.nbTxQueues == XRTA_MAX_QUEUE_PER_PORT
    {
      port := null;
      if !primary {
        if !attachOk {
          return -1, null;
        }
        return 0, null;
      }
      var processed := KvargsProcess(kvlist, Args(0));
      ret := processed.0;
      var args := processed.1;
      if ret < 0 {
        return ret, null;
      }
      ret := XrtaInit();
      if !allocOk {
        // xrta_uninit
        isXrtaInitialized := isXrtaInitialized - 1;
        return -1, null;
      }
      port := new Port(portId, args.noRequestThread);
      return 0, port;
    }

    /** `eth_xrta_remove(vdev)` for the port `rte_eth_dev_allocated` found (`null` if
        none), `releaseRet` being what `rte_eth_dev_release_port` returns. A secondary
        process only stops the port and releases it, and the count is untouched; a
        primary process closes and releases it; and in the primary, or when no port was
        found, the count goes down by one. */
    method Remove(port: Port?, primary: bool, releaseRet: int) returns (ret: int)
      requires port != null ==> port.Valid()
      modifies this, port
      ensures port != null && !primary ==> ret == releaseRet && isXrtaInitialized == old(isXrtaInitialized)
      ensures port == null || primary ==> ret == 0 && isXrtaInitialized == old(isXrtaInitialized) - 1
      ensures port != null ==> port.Valid() && port.linkStatus == 0 && port.devStarted == 0
      ensures port != null && primary ==> !port.macAddrsSet
      ensures port != null && !primary ==> port.macAddrsSet == old(port.macAddrsSet)
      ensures port != null ==> port.isXrtaStarted == old(port.isXrtaStarted) && port.noRequestThread == old(port.noRequestThread)
      ensures port != null ==> port.nbRxQueues == old(port.nbRxQueues) && port.nbTxQueues == old(port.nbTxQueues)
      ensures port != null ==> port.promiscuous == old(port.promiscuous) && port.allMulticast == old(port.allMulticast)
    {
      if port != null {
        if !primary {
          var _ := port.DevStop();
          return releaseRet;
        }
        var _ := port.Close(true);
      }
      isXrtaInitialized := isXrtaInitialized - 1;
      return 0;
    }
  }

  /** A probe in the primary process followed, when it succeeds, by the removal of the
      port it created leaves `is_xrta_initialized` as it was, whatever the device
      arguments and whether or not a port could be allocated. */
  method ProbeThenRemove(driver: Driver, kvlist: Option<KvList>, allocOk: bool, portId: nat)
    returns (probeRet: int)
    modifies driver
    ensures driver.isXrtaInitialized == old(driver.isXrtaInitialized)
    ensures probeRet == 0 <==> kvlist.Some? && allocOk
  {
    var port;
    probeRet, port := driver.Probe(true, false, kvlist, allocOk, portId);
    if probeRet == 0 {
      var _ := driver.Remove(port, true, 0);
    }
  }
}
