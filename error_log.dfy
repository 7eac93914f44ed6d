/** The driver's fixed-capacity diagnostic log, as values: the first
    LOG_SIZE error records since the last dump are kept, later ones are only
    counted. */
module ErrorLog {

  /** Capacity of the record array (SDCARD_ERROR_LOG_SIZE; assumed value). */
  const LOG_SIZE: nat := 16

  /** One failed transaction: command index, response, argument and two checksums. */
  datatype ErrorRecord = ErrorRecord(command: int, response: int, argument: int, crc1: int, crc2: int)

  /** The stored records and the number of errors logged since the last dump. */
  datatype Log = Log(records: seq<ErrorRecord>, count: nat)

  /** What a dump reports: total errors, how many were dropped, the kept records. */
  datatype Report = Report(total: nat, overflow: nat, shown: seq<ErrorRecord>)

  function Min(a: nat, b: nat): nat
  {
    if a < b then a else b
  }

  /** Exactly the first min(count, LOG_SIZE) records are stored. */
  predicate Valid(l: Log)
  {
    |l.records| == Min(l.count, LOG_SIZE)
  }

  const Empty: Log := Log([], 0)

  /** Logging one error: stored only while there is room, always counted. */
  function Push(l: Log, e: ErrorRecord): (r: Log)
    requires Valid(l)
    ensures Valid(r)
    ensures r.count == l.count + 1
    ensures |l.records| <= |r.records| && r.records[..|l.records|] == l.records
  {
    if l.count < LOG_SIZE then Log(l.records + [e], l.count + 1) else Log(l.records, l.count + 1)
  }

  /** Logging several errors in order. */
  function PushAll(l: Log, es: seq<ErrorRecord>): (r: Log)
    requires Valid(l)
    ensures Valid(r)
    decreases |es|
  {
    if es == [] then l else PushAll(Push(l, es[0]), es[1..])
  }

  /** The log keeps the earliest records: after any sequence of errors it holds
      the first LOG_SIZE of everything logged since the last dump, and the
      count grows by exactly the number of errors. */
  lemma {:induction false} PushAllKeepsEarliest(l: Log, es: seq<ErrorRecord>)
    requires Valid(l)
    ensures PushAll(l, es).count == l.count + |es|
    ensures PushAll(l, es).records == (l.records + es)[..Min(l.count + |es|, LOG_SIZE)]
    decreases |es|
  {
    if es == [] {
      assert l.records + es == l.records;
    } else {
      var l1 := Push(l, es[0]);
      PushAllKeepsEarliest(l1, es[1..]);
      var all := l.records + es;
      assert l1.records + es[1..] == if l.count < LOG_SIZE then all else l.records + es[1..];
      if l.count >= LOG_SIZE {
        assert |l.records| == LOG_SIZE;
        assert (l.records + es[1..])[..LOG_SIZE] == l.records == all[..LOG_SIZE];
      }
    }
  }

  /** Appending two batches is the same as appending their concatenation. */
  lemma {:induction false} PushAllAppend(l: Log, a: seq<ErrorRecord>, b: seq<ErrorRecord>)
    requires Valid(l)
    ensures PushAll(PushAll(l, a), b) == PushAll(l, a + b)
    decreases |a|
  {
    if a == [] {
      assert a + b == b;
    } else {
      assert (a + b)[0] == a[0] && (a + b)[1..] == a[1..] + b;
      PushAllAppend(Push(l, a[0]), a[1..], b);
    }
  }

  /** Dumping: report the count, the overflow and the stored records, then
      start over; an empty log reports nothing and is left alone. */
  function Dump(l: Log): (r: (Report, Log))
    requires Valid(l)
    ensures Valid(r.1)
    ensures r.1 == Empty
    ensures r.0.total == l.count && r.0.shown == l.records
    ensures |r.0.shown| + r.0.overflow == l.count
  {
    if l.count > 0 then
      (Report(l.count, if l.count > LOG_SIZE then l.count - LOG_SIZE else 0, l.records), Empty)
    else
      (Report(0, 0, []), l)
  }

  /** Nothing is lost in total: after any errors since the last dump, the dump
      reports all of them, shows the earliest LOG_SIZE, and states the rest as
      overflow. */
  lemma DumpAfterErrors(es: seq<ErrorRecord>)
    ensures var (rep, after) := Dump(PushAll(Empty, es));
      && rep.total == |es|
      && rep.shown == es[..Min(|es|, LOG_SIZE)]
      && rep.overflow == (if |es| > LOG_SIZE then |es| - LOG_SIZE else 0)
      && after == Empty
  {
    PushAllKeepsEarliest(Empty, es);
    assert Empty.records + es == es;
  }
}
