/**
 * A provider that remembers what it did under each idempotency key: a list of the
 * items it made and an index from key to item.  The credit ledger, the work-order
 * store and the message outbox are all this object.
 */
module KeyedLog {
  import opened Wrappers

  datatype Entry<T> = Entry(key: Option<string>, item: T)

  /** The list, each item with the key it was made under, and the index. */
  datatype Log<T> = Log(entries: seq<Entry<T>>, byKey: map<string, T>)

  datatype Submitted<T> = Submitted(log: Log<T>, item: T, deduplicated: bool)

  function Submit<T>(log: Log<T>, key: Option<string>, item: T): Submitted<T> {
    if key.Some? && key.value in log.byKey then
      Submitted(log, log.byKey[key.value], true)
    else
      Submitted(
        Log(log.entries + [Entry(key, item)],
            if key.Some? then log.byKey[key.value := item] else log.byKey),
        item, false)
  }

  /** Index and list agree, and no key appears twice in the list. */
  ghost predicate Agrees<T>(log: Log<T>) {
    && (forall i :: 0 <= i < |log.entries| && log.entries[i].key.Some? ==>
          log.entries[i].key.value in log.byKey && log.byKey[log.entries[i].key.value] == log.entries[i].item)
    && (forall k :: k in log.byKey ==> Entry(Some(k), log.byKey[k]) in log.entries)
    && (forall i, j :: 0 <= i < j < |log.entries| && log.entries[i].key.Some? ==>
          log.entries[i].key != log.entries[j].key)
  }

  /** Nothing in `log` is lost or altered in `later`. */
  ghost predicate Grows<T>(log: Log<T>, later: Log<T>) {
    && log.entries <= later.entries
    && (forall k :: k in log.byKey ==> k in later.byKey && later.byKey[k] == log.byKey[k])
  }

  lemma SubmitKeepsAgreement<T>(log: Log<T>, key: Option<string>, item: T)
    requires Agrees(log)
    ensures var s := Submit(log, key, item);
      && Agrees(s.log) && Grows(log, s.log)
      && (key.Some? ==> key.value in s.log.byKey && s.log.byKey[key.value] == s.item)
      && (s.deduplicated <==> key.Some? && key.value in log.byKey)
      && (if s.deduplicated then s.log == log
          else s.item == item && s.log.entries == log.entries + [Entry(key, item)])
  {
  }

  // ---------- The list is the first call per key ----------

  /** The log after the first n calls. */
  function Replay<T>(calls: seq<Entry<T>>, n: nat): Log<T>
    requires n <= |calls|
  {
    if n == 0 then Log([], map[])
    else Submit(Replay(calls, n - 1), calls[n - 1].key, calls[n - 1].item).log
  }

  ghost predicate KeyUsed<T>(calls: seq<Entry<T>>, n: nat, key: Option<string>)
    requires n <= |calls|
  {
    key.Some? && exists i :: 0 <= i < n && calls[i].key == key
  }

  /** The first n calls, in order, without those whose key an earlier call used. */
  ghost function FirstPerKey<T>(calls: seq<Entry<T>>, n: nat): seq<Entry<T>>
    requires n <= |calls|
  {
    if n == 0 then []
    else FirstPerKey(calls, n - 1) + (if KeyUsed(calls, n - 1, calls[n - 1].key) then [] else [calls[n - 1]])
  }

  lemma {:induction false} IndexHoldsUsedKeys<T>(calls: seq<Entry<T>>, n: nat, k: string)
    requires n <= |calls|
    ensures k in Replay(calls, n).byKey <==> KeyUsed(calls, n, Some(k))
  {
    if n > 0 {
      IndexHoldsUsedKeys(calls, n - 1, k);
      if calls[n - 1].key == Some(k) {
        assert KeyUsed(calls, n, Some(k));
      }
    }
  }

  /**
   * After any sequence of calls the list is exactly the first call per key, in order;
   * calls without a key are all kept.
   */
  lemma {:induction false} ListIsFirstPerKey<T>(calls: seq<Entry<T>>, n: nat)
    requires n <= |calls|
    ensures Agrees(Replay(calls, n))
    ensures Replay(calls, n).entries == FirstPerKey(calls, n)
  {
    if n > 0 {
      ListIsFirstPerKey(calls, n - 1);
      SubmitKeepsAgreement(Replay(calls, n - 1), calls[n - 1].key, calls[n - 1].item);
      if calls[n - 1].key.Some? {
        IndexHoldsUsedKeys(calls, n - 1, calls[n - 1].key.value);
      }
    }
  }

  /** Every later call under a key is answered with the item of the key's first call. */
  lemma {:induction false} AnswersFirstItem<T>(calls: seq<Entry<T>>, first: nat, n: nat)
    requires first < n <= |calls| && calls[first].key.Some?
    requires !KeyUsed(calls, first, calls[first].key)
    ensures var k := calls[first].key.value;
      k in Replay(calls, n).byKey && Replay(calls, n).byKey[k] == calls[first].item
    ensures n < |calls| && calls[n].key == calls[first].key ==>
      var s := Submit(Replay(calls, n), calls[n].key, calls[n].item);
      s.deduplicated && s.item == calls[first].item
  {
    if first < n - 1 {
      AnswersFirstItem(calls, first, n - 1);
    } else {
      IndexHoldsUsedKeys(calls, first, calls[first].key.value);
    }
  }

  // ---------- The provider object ----------

  class KeyedProvider<T> {
    var items: seq<T>
    var byKey: map<string, T>
    ghost var keys: seq<Option<string>>

    ghost predicate Valid()
      reads this
    {
      |keys| == |items| && Agrees(AsLog())
    }

    /** The abstract log: the list with the keys its items were made under. */
    ghost function AsLog(): Log<T>
      reads this
    {
      Log(seq(|items|, i requires 0 <= i < |items| reads this =>
            Entry(if i < |keys| then keys[i] else None, items[i])), byKey)
    }

    constructor ()
      ensures Valid() && AsLog() == Log([], map[]) && items == []
    {
      items := [];
      byKey := map[];
      keys := [];
    }

    method Issue(item: T, key: Option<string>) returns (result: T, deduplicated: bool)
      requires Valid()
      modifies this
      ensures Valid()
      ensures Submitted(AsLog(), result, deduplicated) == Submit(old(AsLog()), key, item)
      ensures items == if deduplicated then old(items) else old(items) + [item]
    {
      SubmitKeepsAgreement(AsLog(), key, item);
      if key.Some? && key.value in byKey {
        return byKey[key.value], true;
      }
      ghost var before := AsLog();
      items := items + [item];
      keys := keys + [key];
      if key.Some? {
        byKey := byKey[key.value := item];
      }
      assert AsLog().entries == before.entries + [Entry(key, item)];
      return item, false;
    }
  }
}
