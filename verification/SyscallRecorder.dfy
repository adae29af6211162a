/**
 The seccomp recorder: the recorded bitmaps of several keys are merged into one
 buffer, and the IDs set in it are resolved to names through a cache. Reading a
 bitmap and resolving an ID are parameters; both are deterministic.
 */
module SyscallRecorder {
  import opened Ordering
  import opened Wrappers

  type Byte = b: int | 0 <= b < 256

  /** What reading a key from the kernel map gives; `Missing` is ENOENT. */
  datatype Recorded = Bits(bits: seq<Byte>) | Missing | Unreadable

  datatype Result = Names(names: seq<string>) | NotFound | ReadFailed

  type Read = int -> Recorded

  /** libseccomp's name of a syscall number, if it has one. */
  type NameOf = nat -> Option<string>

  // ---------------------------------------------------------------- what has been recorded

  function At(read: Read, key: int): Recorded {
    read(key)
  }

  predicate SetIn(r: Recorded, id: nat) {
    r.Bits? && id < |r.bits| && r.bits[id] == 1
  }

  /** The length of the merged buffer: the one of the first bitmap that can be read. */
  function BufferLength(keys: seq<int>, read: Read): nat {
    if keys == [] then 0
    else if At(read, keys[0]).Bits? then |At(read, keys[0]).bits|
    else BufferLength(keys[1..], read)
  }

  /** Some of the keys recorded the syscall. */
  ghost predicate RecordedBy(keys: seq<int>, read: Read, id: nat) {
    exists i | 0 <= i < |keys| :: SetIn(At(read, keys[i]), id)
  }

  ghost predicate NoneReadable(keys: seq<int>, read: Read) {
    forall i | 0 <= i < |keys| :: !At(read, keys[i]).Bits?
  }

  ghost predicate AllMissing(keys: seq<int>, read: Read) {
    forall i | 0 <= i < |keys| :: At(read, keys[i]) == Missing
  }

  /** The syscall ends up in the merged buffer. */
  ghost predicate IsRecorded(keys: seq<int>, read: Read, id: nat) {
    id < BufferLength(keys, read) && RecordedBy(keys, read, id)
  }

  ghost predicate SameLength(read: Read, length: nat) {
    forall k | At(read, k).Bits? :: |At(read, k).bits| == length
  }

  lemma {:induction false} BufferLengthUniform(keys: seq<int>, read: Read, length: nat)
    requires SameLength(read, length)
    ensures BufferLength(keys, read) == if NoneReadable(keys, read) then 0 else length
    decreases |keys|
  {
    if keys != [] {
      var rest := keys[1..];
      BufferLengthUniform(rest, read, length);
      if At(read, keys[0]).Bits? {
        assert |At(read, keys[0]).bits| == length;
      } else {
        assert NoneReadable(rest, read) <==> NoneReadable(keys, read) by {
          assert forall i | 0 < i < |keys| :: keys[i] == rest[i - 1];
          assert forall i | 0 <= i < |rest| :: rest[i] == keys[i + 1];
        }
      }
    }
  }

  lemma {:induction false} SameKeysSameIds(keys: seq<int>, keys': seq<int>, read: Read, id: nat)
    requires (forall k | k in keys :: k in keys') && RecordedBy(keys, read, id)
    ensures RecordedBy(keys', read, id)
  {
    var i :| 0 <= i < |keys| && SetIn(At(read, keys[i]), id);
    assert keys[i] in keys;
    var j :| 0 <= j < |keys'| && keys'[j] == keys[i];
    assert SetIn(At(read, keys'[j]), id);
  }

  /** With bitmaps of one length, neither the order nor the repetition of keys matters. */
  lemma {:induction false} KeyOrderIrrelevant(keys: seq<int>, keys': seq<int>, read: Read, length: nat, id: nat)
    requires SameLength(read, length) && forall k :: k in keys <==> k in keys'
    ensures IsRecorded(keys, read, id) <==> IsRecorded(keys', read, id)
    ensures IsRecorded(keys, read, id) <==> RecordedBy(keys, read, id)
  {
    BufferLengthUniform(keys, read, length);
    BufferLengthUniform(keys', read, length);
    if RecordedBy(keys, read, id) {
      var i :| 0 <= i < |keys| && SetIn(At(read, keys[i]), id);
      assert !NoneReadable(keys, read) && |At(read, keys[i]).bits| == length;
      SameKeysSameIds(keys, keys', read, id);
    }
    if RecordedBy(keys', read, id) {
      SameKeysSameIds(keys', keys, read, id);
    }
  }

  /** For bitmaps of one length: which IDs are recorded, spelled out. */
  lemma {:induction false} RecordedSpelled(keys: seq<int>, read: Read, length: nat, id: nat)
    requires forall k | At(read, k).Bits? :: |At(read, k).bits| == length
    ensures IsRecorded(keys, read, id) <==>
            exists k | k in keys :: read(k).Bits? && id < |read(k).bits| && read(k).bits[id] == 1
  {
    KeyOrderIrrelevant(keys, keys, read, length, id);
    if RecordedBy(keys, read, id) {
      var i :| 0 <= i < |keys| && SetIn(At(read, keys[i]), id);
      assert keys[i] in keys;
    }
    if k :| k in keys && read(k).Bits? && id < |read(k).bits| && read(k).bits[id] == 1 {
      var i :| 0 <= i < |keys| && keys[i] == k;
      assert SetIn(At(read, keys[i]), id);
    }
  }

  // ---------------------------------------------------------------- the cache key

  function Digit(d: nat): char
    requires d < 10
  {
    ['0', '1', '2', '3', '4', '5', '6', '7', '8', '9'][d]
  }

  /** `strconv.Itoa` of a syscall number. */
  function Itoa(n: nat): string {
    if n < 10 then [Digit(n)] else Itoa(n / 10) + [Digit(n % 10)]
  }

  lemma {:induction false} ItoaInjective(n: nat, m: nat)
    requires Itoa(n) == Itoa(m)
    ensures n == m
    decreases n
  {
    var a, b := Itoa(n), Itoa(m);
    assert a[|a| - 1] == Digit(n % 10) && b[|b| - 1] == Digit(m % 10);
    assert n % 10 == m % 10;
    ItoaNonEmpty(n / 10);
    ItoaNonEmpty(m / 10);
    if n >= 10 && m >= 10 {
      assert a[..|a| - 1] == Itoa(n / 10) && b[..|b| - 1] == Itoa(m / 10);
      ItoaInjective(n / 10, m / 10);
    } else {
      assert |a| == 1 || |b| == 1;
    }
  }

  lemma {:induction false} ItoaNonEmpty(n: nat)
    ensures |Itoa(n)| >= 1
  {
  }

  // ---------------------------------------------------------------- the cache under concurrency

  /** Whatever the cache says is what the lookup says. */
  ghost predicate Sound(cache: map<string, string>, nameOf: NameOf) {
    forall id: nat | Itoa(id) in cache :: nameOf(id) == Some(cache[Itoa(id)])
  }

  /** A call of syscallNameForID between its locks: it missed the cache, or resolved its ID. */
  datatype Call = Missed(id: nat) | Resolved(id: nat, name: string)

  /** The cache, the calls in flight, and what the finished calls answered. */
  datatype Calls = Calls(cache: map<string, string>, flying: map<int, Call>, answers: seq<(nat, Option<string>)>)

  datatype CallEvent =
    | CacheRead(thread: int, id: nat)   // under the read lock
    | Lookup(thread: int)               // the foreign call, under none
    | CacheWrite(thread: int)           // under the write lock

  function Answered(s: Calls, thread: int, id: nat, name: Option<string>): Calls {
    s.(flying := s.flying - {thread}, answers := s.answers + [(id, name)])
  }

  function StepCall(s: Calls, nameOf: NameOf, e: CallEvent): Calls {
    match e
    case CacheRead(t, id) =>
      if t in s.flying then s
      else if Itoa(id) in s.cache then Answered(s, t, id, Some(s.cache[Itoa(id)]))
      else s.(flying := s.flying[t := Missed(id)])
    case Lookup(t) =>
      if t !in s.flying || s.flying[t].Resolved? then s
      else
        var id := s.flying[t].id;
        if nameOf(id).None? then Answered(s, t, id, None)
        else s.(flying := s.flying[t := Resolved(id, nameOf(id).value)])
    case CacheWrite(t) =>
      if t !in s.flying || s.flying[t].Missed? then s
      else
        var call := s.flying[t];
        Answered(s.(cache := s.cache[Itoa(call.id) := call.name]), t, call.id, Some(call.name))
  }

  function RunCalls(s: Calls, nameOf: NameOf, trace: seq<CallEvent>): Calls
    decreases |trace|
  {
    if trace == [] then s else RunCalls(StepCall(s, nameOf, trace[0]), nameOf, trace[1..])
  }

  ghost predicate CallsSound(s: Calls, nameOf: NameOf) {
    && Sound(s.cache, nameOf)
    && (forall t | t in s.flying && s.flying[t].Resolved? :: nameOf(s.flying[t].id) == Some(s.flying[t].name))
    && forall i | 0 <= i < |s.answers| :: s.answers[i].1 == nameOf(s.answers[i].0)
  }

  lemma {:induction false} StoreSound(cache: map<string, string>, nameOf: NameOf, id: nat, name: string)
    requires Sound(cache, nameOf) && nameOf(id) == Some(name)
    ensures Sound(cache[Itoa(id) := name], nameOf)
  {
    forall other: nat | Itoa(other) in cache[Itoa(id) := name]
      ensures nameOf(other) == Some(cache[Itoa(id) := name][Itoa(other)])
    {
      if Itoa(other) == Itoa(id) {
        ItoaInjective(other, id);
      }
    }
  }

  /**
   In every interleaving of concurrent calls the cache agrees with the lookup,
   and every finished call answered what the lookup says.
   */
  lemma {:induction false} CacheSoundInEveryRun(s: Calls, nameOf: NameOf, trace: seq<CallEvent>)
    requires CallsSound(s, nameOf)
    ensures CallsSound(RunCalls(s, nameOf, trace), nameOf)
    decreases |trace|
  {
    if trace != [] {
      var e := trace[0];
      if e.CacheWrite? && e.thread in s.flying && s.flying[e.thread].Resolved? {
        StoreSound(s.cache, nameOf, s.flying[e.thread].id, s.flying[e.thread].name);
      }
      CacheSoundInEveryRun(StepCall(s, nameOf, e), nameOf, trace[1..]);
    }
  }

  /** How many calls start in a run: a thread has one at a time. */
  function Started(s: Calls, nameOf: NameOf, trace: seq<CallEvent>): nat
    decreases |trace|
  {
    if trace == [] then 0
    else
      (if trace[0].CacheRead? && trace[0].thread !in s.flying then 1 else 0)
      + Started(StepCall(s, nameOf, trace[0]), nameOf, trace[1..])
  }

  /** A thread's call ends, or starts, and the others' stay in flight. */
  lemma {:induction false} CallsInFlight(flying: map<int, Call>, t: int, c: Call)
    ensures t in flying ==> |flying - {t}| == |flying| - 1
    ensures t !in flying ==> flying - {t} == flying
    ensures |flying[t := c]| == if t in flying then |flying| else |flying| + 1
  {
    assert (flying - {t}).Keys == flying.Keys - {t};
    assert flying[t := c].Keys == flying.Keys + {t};
  }

  /** No call is lost: in every run each one that started is in flight or has its answer. */
  lemma {:induction false} CallsConserved(s: Calls, nameOf: NameOf, trace: seq<CallEvent>)
    ensures var r := RunCalls(s, nameOf, trace);
            |r.flying| + |r.answers| == |s.flying| + |s.answers| + Started(s, nameOf, trace)
    decreases |trace|
  {
    if trace != [] {
      var t, next := trace[0].thread, StepCall(s, nameOf, trace[0]);
      CallsInFlight(s.flying, t, if t in next.flying then next.flying[t] else Missed(0));
      CallsConserved(next, nameOf, trace[1..]);
    }
  }

  /** One call in its three steps answers what the lookup says, once, and a name is then cached. */
  lemma {:induction false} CallAnswers(s: Calls, nameOf: NameOf, t: int, id: nat)
    requires CallsSound(s, nameOf) && t !in s.flying
    ensures var r := RunCalls(s, nameOf, [CacheRead(t, id), Lookup(t), CacheWrite(t)]);
            && r.answers == s.answers + [(id, nameOf(id))] && r.flying == s.flying
            && r.cache == if nameOf(id).Some? then s.cache[Itoa(id) := nameOf(id).value] else s.cache
  {
    var s1 := StepCall(s, nameOf, CacheRead(t, id));
    var s2 := StepCall(s1, nameOf, Lookup(t));
    var s3 := StepCall(s2, nameOf, CacheWrite(t));
    var trace := [CacheRead(t, id), Lookup(t), CacheWrite(t)];
    assert trace[1..] == [Lookup(t), CacheWrite(t)] && trace[1..][1..] == [CacheWrite(t)];
    assert RunCalls(s1, nameOf, trace[1..]) == RunCalls(s2, nameOf, [CacheWrite(t)]) == s3;
    assert s3.flying == s.flying;
  }

  // ---------------------------------------------------------------- the recorder

  class Recorder {
    const nameOf: NameOf
    var cache: map<string, string>

    ghost predicate Valid()
      reads this
    {
      Sound(cache, nameOf)
    }

    constructor (nameOf: NameOf)
      ensures Valid() && this.nameOf == nameOf && cache == map[]
    {
      this.nameOf := nameOf;
      cache := map[];
    }

    method SyscallNameForId(id: nat) returns (name: Option<string>)
      requires Valid()
      modifies this`cache
      ensures Valid() && name == nameOf(id)
    {
      var key := Itoa(id);
      if key in cache {
        return Some(cache[key]);
      }
      name := nameOf(id);
      if name.Some? {
        StoreSound(cache, nameOf, id, name.value);
        cache := cache[key := name.value];
      }
    }

    method ConvertIds(merged: array<Byte>) returns (names: seq<string>)
      requires Valid()
      modifies this`cache
      ensures Valid()
      ensures forall n :: n in names <==>
                exists id | 0 <= id < merged.Length :: merged[id] == 1 && nameOf(id) == Some(n)
    {
      names := [];
      for id := 0 to merged.Length
        invariant Valid()
        invariant forall n :: n in names <==> exists i | 0 <= i < id :: merged[i] == 1 && nameOf(i) == Some(n)
      {
        if merged[id] == 1 {
          var name := SyscallNameForId(id);
          if name.Some? {
            names := names + [name.value];
          }
        }
      }
    }

    /**
     The ascending names of exactly the recorded IDs that can be resolved. It
     reports not-found exactly if every read found nothing, and a failed read
     only if no other one succeeded.
     */
    method Syscalls(keys: seq<int>, read: Read) returns (r: Result)
      requires Valid()
      modifies this`cache
      ensures Valid()
      ensures r == NotFound <==> AllMissing(keys, read)
      ensures r == ReadFailed <==> NoneReadable(keys, read) && !AllMissing(keys, read)
      ensures r.Names? ==> Ascending(StringLe, r.names)
                           && forall n :: n in r.names <==>
                                exists id: nat :: IsRecorded(keys, read, id) && nameOf(id) == Some(n)
    {
      var merged, failed := Merge(keys, read);
      if merged == null {
        return if failed then ReadFailed else NotFound;
      }
      var names := ConvertIds(merged);
      StringOrder();
      SortCompactLists(StringLe, names);
      r := Names(SortCompact(StringLe, names));
    }
  }

  /** The merged buffer, or null if nothing could be read; `failed` if a read failed. */
  method Merge(keys: seq<int>, read: Read) returns (merged: array?<Byte>, failed: bool)
    ensures merged == null <==> NoneReadable(keys, read)
    ensures merged == null ==> (failed <==> !AllMissing(keys, read))
    ensures merged != null ==> fresh(merged) && forall id: nat ::
              IsRecorded(keys, read, id) <==> id < merged.Length && merged[id] == 1
  {
    merged, failed := null, false;
    for i := 0 to |keys|
      invariant merged == null <==> NoneReadable(keys[..i], read)
      invariant failed <==> exists j | 0 <= j < i :: At(read, keys[j]) == Unreadable
      invariant merged == null ==> BufferLength(keys, read) == BufferLength(keys[i..], read)
      invariant merged != null ==> fresh(merged) && merged.Length == BufferLength(keys, read)
      invariant merged != null ==> forall id | 0 <= id < merged.Length ::
                  merged[id] == 1 <==> RecordedBy(keys[..i], read, id)
    {
      var recorded := At(read, keys[i]);
      assert keys[..i + 1] == keys[..i] + [keys[i]] && keys[i..][1..] == keys[i + 1..];
      RecordedNext(keys, read, i);
      if !recorded.Bits? {
        failed := failed || recorded == Unreadable;
        continue;
      }
      if merged == null {
        merged := new Byte[|recorded.bits|](_ => 0);
      }
      MergeBits(merged, recorded.bits);
    }
    assert keys[..|keys|] == keys;
  }

  lemma {:induction false} RecordedNext(keys: seq<int>, read: Read, i: nat)
    requires i < |keys|
    ensures NoneReadable(keys[..i + 1], read) <==> NoneReadable(keys[..i], read) && !At(read, keys[i]).Bits?
    ensures forall id :: RecordedBy(keys[..i + 1], read, id) <==>
                           RecordedBy(keys[..i], read, id) || SetIn(At(read, keys[i]), id)
    ensures NoneReadable(keys[..i], read) ==> forall id :: !RecordedBy(keys[..i], read, id)
  {
    var next, before := keys[..i + 1], keys[..i];
    assert next == before + [keys[i]];
    forall id
      ensures RecordedBy(next, read, id) <==> RecordedBy(before, read, id) || SetIn(At(read, keys[i]), id)
    {
      if RecordedBy(before, read, id) {
        var j :| 0 <= j < |before| && SetIn(At(read, before[j]), id);
        assert next[j] == before[j];
      }
      assert next[i] == keys[i];
    }
    assert NoneReadable(next, read) ==> NoneReadable(before, read) && !At(read, keys[i]).Bits? by {
      assert forall j | 0 <= j < i :: next[j] == before[j];
      assert next[i] == keys[i];
    }
  }

  /** Sets the bits of one bitmap in the merged buffer, as far as they fit. */
  method MergeBits(merged: array<Byte>, bits: seq<Byte>)
    modifies merged
    ensures forall id | 0 <= id < merged.Length ::
              merged[id] == 1 <==> old(merged[id]) == 1 || SetIn(Bits(bits), id)
  {
    for id := 0 to |bits|
      invariant forall i | 0 <= i < merged.Length ::
                  merged[i] == 1 <==> old(merged[i]) == 1 || (i < id && bits[i] == 1)
    {
      if bits[id] == 1 && id < merged.Length {
        merged[id] := 1;
      }
    }
  }
}
