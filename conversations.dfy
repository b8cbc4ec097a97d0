/**
  The conversation registry of `dumpMedia`: two parallel lists linking a
  thread id to the directory name chosen for it, grown as attachments are
  exported, and the `sent`/`received` target directory below that name.
*/
module Conversations {
  import opened Wrappers
  import opened Text

  /** Thread ids and their directory names; entry `i` of one belongs to entry `i` of the other. */
  datatype Registry = Registry(threadIds: seq<int>, names: seq<string>)

  const EmptyRegistry: Registry := Registry([], [])

  predicate Distinct<T(==)>(s: seq<T>)
  {
    forall i, j :: 0 <= i < j < |s| ==> s[i] != s[j]
  }

  /** Equal lengths, no thread twice, no name twice: a one-to-one mapping. */
  predicate RegistryInvariant(r: Registry)
  {
    |r.threadIds| == |r.names| && Distinct(r.threadIds) && Distinct(r.names)
  }

  /** `r` is the registry `r'` was grown from. */
  predicate Extends(r: Registry, r': Registry)
  {
    r.threadIds <= r'.threadIds && r.names <= r'.names
  }

  /** Index of the first occurrence of `x` in `s`, or -1. */
  function IndexOf(s: seq<int>, x: int): (k: int)
    ensures -1 <= k < |s|
    ensures k >= 0 ==> s[k] == x && forall j :: 0 <= j < k ==> s[j] != x
    ensures k == -1 <==> x !in s
  {
    if s == [] then -1
    else if s[0] == x then 0
    else
      var k := IndexOf(s[1..], x);
      if k == -1 then -1 else k + 1
  }

  /** The directory name a thread has been given. */
  function NameOf(r: Registry, tid: int): string
    requires |r.threadIds| == |r.names| && tid in r.threadIds
  {
    r.names[IndexOf(r.threadIds, tid)]
  }

  /** The sanitized chat partner, or "Contact <tid>" when that is empty. */
  function DirectoryBase(chatpartner: string, tid: int): string
  {
    if chatpartner == "" then "Contact " + IntToString(tid) else chatpartner
  }

  const Suffix: string := "(2)"

  /** `k` copies of "(2)". */
  function Repeat(k: nat): (s: string)
    ensures |s| == 3 * k
  {
    if k == 0 then "" else Repeat(k - 1) + Suffix
  }

  function MaxLength(names: seq<string>): (m: nat)
    ensures forall i :: 0 <= i < |names| ==> |names[i]| <= m
  {
    if names == [] then 0
    else
      var m := MaxLength(names[..|names| - 1]);
      if |names[|names| - 1]| > m then |names[|names| - 1]| else m
  }

  lemma MaxLengthBound(names: seq<string>, s: string)
    requires s in names
    ensures |s| <= MaxLength(names)
  {
  }

  /** The first count from `k` on at which `base` with that many suffixes is unused. */
  function SuffixCountFrom(names: seq<string>, base: string, k: nat): (n: nat)
    ensures k <= n
    ensures base + Repeat(n) !in names
    ensures forall j :: k <= j < n ==> base + Repeat(j) in names
    decreases MaxLength(names) + 3 - |base| - 3 * k
  {
    if base + Repeat(k) !in names then k
    else
      MaxLengthBound(names, base + Repeat(k));
      SuffixCountFrom(names, base, k + 1)
  }

  /** The number of "(2)" suffixes that makes `base` unused. */
  function SuffixCount(names: seq<string>, base: string): nat
  {
    SuffixCountFrom(names, base, 0)
  }

  /** `base` with as many "(2)" as needed to be unused by any name in `names`. */
  function FreshName(names: seq<string>, base: string): string
  {
    base + Repeat(SuffixCount(names, base))
  }

  /** The least unused count is the only count with that property. */
  lemma SuffixCountUnique(names: seq<string>, base: string, k: nat)
    requires base + Repeat(k) !in names
    requires forall j :: 0 <= j < k ==> base + Repeat(j) in names
    ensures k == SuffixCount(names, base)
  {
  }

  /**
    The fresh name is unused; it is `base` itself when `base` is unused, and
    otherwise `base` followed by "(2)" and possibly further "(2)"s, every
    shorter candidate being taken.
  */
  lemma FreshNameProperties(names: seq<string>, base: string)
    ensures FreshName(names, base) !in names
    ensures base !in names ==> FreshName(names, base) == base
    ensures base in names ==>
      var n := FreshName(names, base);
      |n| >= |base| + 3 && n[..|base| + 3] == base + Suffix
    ensures forall j :: 0 <= j < SuffixCount(names, base) ==> base + Repeat(j) in names
  {
    var k := SuffixCount(names, base);
    if base in names {
      assert Repeat(0) == "";
      assert base + Repeat(0) == base;
      assert k >= 1;
      RepeatPrefix(k);
      Associative(base, Suffix, Repeat(k)[3..]);
    } else {
      assert base + Repeat(0) == base;
    }
  }

  lemma {:induction false} RepeatPrefix(k: nat)
    requires k >= 1
    ensures Repeat(k)[..3] == Suffix
    ensures Repeat(k) == Suffix + Repeat(k)[3..]
  {
    if k > 1 {
      RepeatPrefix(k - 1);
    }
  }

  /**
    The registry after handling one attachment of thread `tid`: a known thread
    keeps its entry; a new one is appended to both lists together with a fresh name.
  */
  function Assign(r: Registry, tid: int, chatpartner: string): (res: (Registry, nat))
    requires RegistryInvariant(r)
    ensures RegistryInvariant(res.0) && Extends(r, res.0)
    ensures res.1 < |res.0.names| && res.0.threadIds[res.1] == tid
  {
    var idx := IndexOf(r.threadIds, tid);
    if idx != -1 then (r, idx)
    else
      var name := FreshName(r.names, DirectoryBase(chatpartner, tid));
      FreshNameProperties(r.names, DirectoryBase(chatpartner, tid));
      (Registry(r.threadIds + [tid], r.names + [name]), |r.names|)
  }

  /** A thread already registered reuses its name and leaves the registry as it was. */
  lemma AssignKnownThread(r: Registry, tid: int, chatpartner: string)
    requires RegistryInvariant(r) && tid in r.threadIds
    ensures Assign(r, tid, chatpartner).0 == r
    ensures r.names[Assign(r, tid, chatpartner).1] == NameOf(r, tid)
  {
  }

  /**
    A new thread is appended to both lists, under its chat partner's name (or
    "Contact <tid>") when that is unused and under a "(2)"-suffixed form otherwise.
  */
  lemma AssignNewThread(r: Registry, tid: int, chatpartner: string)
    requires RegistryInvariant(r) && tid !in r.threadIds
    ensures var base := DirectoryBase(chatpartner, tid);
      var name := FreshName(r.names, base);
      Assign(r, tid, chatpartner) == (Registry(r.threadIds + [tid], r.names + [name]), |r.names|) &&
      name !in r.names &&
      (base !in r.names ==> name == base) &&
      (base in r.names ==> |name| >= |base| + 3 && name[..|base| + 3] == base + Suffix)
  {
    FreshNameProperties(r.names, DirectoryBase(chatpartner, tid));
  }

  /** Assigning the same thread again, under any chat partner, changes nothing and gives the same name. */
  lemma AssignSameThreadTwice(r: Registry, tid: int, first: string, second: string)
    requires RegistryInvariant(r)
    ensures var (r1, i1) := Assign(r, tid, first);
      var (r2, i2) := Assign(r1, tid, second);
      r2 == r1 && r2.names[i2] == r1.names[i1]
  {
    var (r1, i1) := Assign(r, tid, first);
    assert tid in r1.threadIds;
    var (r2, i2) := Assign(r1, tid, second);
    assert i2 == i1 by {
      assert r1.threadIds[i1] == tid && r1.threadIds[i2] == tid;
    }
  }

  /** Distinct threads of a registry never share a directory name. */
  lemma DistinctThreadsDistinctNames(r: Registry, tid1: int, tid2: int)
    requires RegistryInvariant(r) && tid1 in r.threadIds && tid2 in r.threadIds && tid1 != tid2
    ensures NameOf(r, tid1) != NameOf(r, tid2)
  {
    var i, j := IndexOf(r.threadIds, tid1), IndexOf(r.threadIds, tid2);
    assert i != j;
  }

  /**
    Two new threads with the same chat partner: the second gets the first's
    name followed by "(2)" (and possibly more), so their names differ.
  */
  lemma SameChatPartnerTwoThreads(r: Registry, tid1: int, tid2: int, chatpartner: string)
    requires RegistryInvariant(r) && tid1 !in r.threadIds && tid2 !in r.threadIds && tid1 != tid2
    requires chatpartner != ""
    ensures var (r1, i1) := Assign(r, tid1, chatpartner);
      var (r2, i2) := Assign(r1, tid2, chatpartner);
      var n1, n2 := r2.names[i1], r2.names[i2];
      n1 != n2 && |n2| >= |n1| + 3 && n2[..|n1| + 3] == n1 + Suffix
  {
    var (r1, i1) := Assign(r, tid1, chatpartner);
    AssignNewThread(r, tid1, chatpartner);
    assert tid2 !in r1.threadIds;
    AssignNewThread(r1, tid2, chatpartner);
    FreshNameTwice(r.names, chatpartner);
  }

  /** Registering the fresh name for `base` makes the next fresh name for `base` that name plus "(2)"…. */
  lemma FreshNameTwice(names: seq<string>, base: string)
    ensures var n1 := FreshName(names, base);
      var n2 := FreshName(names + [n1], base);
      n1 != n2 && |n2| >= |n1| + 3 && n2[..|n1| + 3] == n1 + Suffix
  {
    SuffixCountGrows(names, base);
    RepeatExtends(base, SuffixCount(names, base), SuffixCount(names + [FreshName(names, base)], base));
  }

  /** Once the fresh name is registered, more suffixes are needed. */
  lemma SuffixCountGrows(names: seq<string>, base: string)
    ensures SuffixCount(names + [FreshName(names, base)], base) > SuffixCount(names, base)
  {
    var names1 := names + [FreshName(names, base)];
    var k1 := SuffixCount(names, base);
    FreshNameProperties(names, base);
    FreshNameProperties(names1, base);
    assert base + Repeat(k1) in names1;
    assert forall j :: 0 <= j < k1 ==> base + Repeat(j) in names1;
  }

  /** More suffixes give a longer name that starts with the shorter one and "(2)". */
  lemma RepeatExtends(base: string, k1: nat, k2: nat)
    requires k1 < k2
    ensures var n1, n2 := base + Repeat(k1), base + Repeat(k2);
      n1 != n2 && |n2| >= |n1| + 3 && n2[..|n1| + 3] == n1 + Suffix
  {
    var n1 := base + Repeat(k1);
    RepeatSplit(k1, k2 - k1);
    Associative(base, Repeat(k1), Repeat(k2 - k1));
    RepeatPrefix(k2 - k1);
    Associative(n1, Suffix, Repeat(k2 - k1)[3..]);
  }

  lemma {:induction false} RepeatSplit(a: nat, b: nat)
    ensures Repeat(a + b) == Repeat(a) + Repeat(b)
    decreases b
  {
    if b > 0 {
      RepeatSplit(a, b - 1);
      Associative(Repeat(a), Repeat(b - 1), Suffix);
    }
  }

  /** The directory an attachment goes to: `<dir>/<conversation>/sent` or `.../received`. */
  function TargetDir(dir: string, name: string, outgoing: bool): string
  {
    dir + "/" + name + "/" + (if outgoing then "sent" else "received")
  }

  /** A target directory determines both the conversation name and the direction. */
  lemma TargetDirInjective(dir: string, name1: string, out1: bool, name2: string, out2: bool)
    requires TargetDir(dir, name1, out1) == TargetDir(dir, name2, out2)
    ensures name1 == name2 && out1 == out2
  {
    var t := TargetDir(dir, name1, out1);
    var leaf1 := if out1 then "sent" else "received";
    var leaf2 := if out2 then "sent" else "received";
    var head1, head2 := dir + "/" + name1 + "/", dir + "/" + name2 + "/";
    assert t == head1 + leaf1 && t == head2 + leaf2;
    assert t[|t| - 4..] == leaf1[|leaf1| - 4..];
    assert t[|t| - 4..] == leaf2[|leaf2| - 4..];
    assert out1 == out2;
    assert head1 == t[..|t| - |leaf1|] == head2;
    assert name1 == head1[|dir| + 1..|head1| - 1];
    assert name2 == head2[|dir| + 1..|head2| - 1];
  }

  /** Distinct threads of a registry export into distinct directories. */
  lemma DistinctThreadsDistinctDirs(r: Registry, dir: string, tid1: int, out1: bool, tid2: int, out2: bool)
    requires RegistryInvariant(r) && tid1 in r.threadIds && tid2 in r.threadIds && tid1 != tid2
    ensures TargetDir(dir, NameOf(r, tid1), out1) != TargetDir(dir, NameOf(r, tid2), out2)
  {
    DistinctThreadsDistinctNames(r, tid1, tid2);
    if TargetDir(dir, NameOf(r, tid1), out1) == TargetDir(dir, NameOf(r, tid2), out2) {
      TargetDirInjective(dir, NameOf(r, tid1), out1, NameOf(r, tid2), out2);
    }
  }

  /** A registry that only grows keeps every name it had. */
  lemma NameOfStable(r: Registry, r': Registry, tid: int)
    requires |r.threadIds| == |r.names| && |r'.threadIds| == |r'.names|
    requires Extends(r, r') && tid in r.threadIds
    ensures tid in r'.threadIds && NameOf(r', tid) == NameOf(r, tid)
  {
    var k := IndexOf(r.threadIds, tid);
    assert r'.threadIds[k] == tid;

  }

  // ---------------------------------------------------------------------------
  // The registry object of dumpMedia
  // ---------------------------------------------------------------------------

  class ConversationRegistry {
    var threadIds: seq<int>
    var names: seq<string>

    ghost predicate Valid()
      reads this
    {
      RegistryInvariant(Model())
    }

    function Model(): Registry
      reads this
    {
      Registry(threadIds, names)
    }

    constructor ()
      ensures Valid() && Model() == EmptyRegistry
    {
      threadIds := [];
      names := [];
    }

    /**
      Finds or allocates the directory name for thread `tid`, given the
      sanitized chat partner, and returns its index in both lists.
    */
    method DirectoryFor(tid: int, chatpartner: string) returns (idx: nat)
      requires Valid()
      modifies this
      ensures Valid()
      ensures (Model(), idx) == Assign(old(Model()), tid, chatpartner)
      ensures idx < |names| && threadIds[idx] == tid
    {
      var base := DirectoryBase(chatpartner, tid);
      var found := IndexOf(threadIds, tid);
      if found != -1 {
        return found;
      }
      var name := base;
      ghost var k: nat := 0;
      assert name == base + Repeat(0);
      if name in names {
        name := name + Suffix;
        k := 1;
        assert name == base + Repeat(1);
        while name in names
          invariant name == base + Repeat(k)
          invariant forall j :: 0 <= j < k ==> base + Repeat(j) in names
          invariant unchanged(this)
          decreases MaxLength(names) + 3 - |name|
        {
          MaxLengthBound(names, name);
          Associative(base, Repeat(k), Suffix);
          name := name + Suffix;
          k := k + 1;
        }
      }
      SuffixCountUnique(names, base, k);
      FreshNameProperties(names, base);
      threadIds := threadIds + [tid];
      names := names + [name];
      idx := |names| - 1;
    }
  }

  // ---------------------------------------------------------------------------
  // The registry as declared: thread ids kept as 32-bit ints
  // ---------------------------------------------------------------------------

  /** Narrowing a 64-bit value to a 32-bit two's-complement `int`. */
  function Int32(x: int): int
  {
    (x + 0x8000_0000) % 0x1_0000_0000 - 0x8000_0000
  }

  /**
    `Assign` with the ids stored as `std::vector<int>` stores them: the lookup
    compares the stored (narrowed) ids with the 64-bit thread id, and a new
    thread is pushed narrowed.
  */
  function AssignAsWritten(r: Registry, tid: int, chatpartner: string): (res: (Registry, nat))
    requires |r.threadIds| == |r.names|
    ensures |res.0.threadIds| == |res.0.names| && res.1 < |res.0.names|
  {
    var idx := IndexOf(r.threadIds, tid);
    if idx != -1 then (r, idx)
    else
      var name := FreshName(r.names, DirectoryBase(chatpartner, tid));
      (Registry(r.threadIds + [Int32(tid)], r.names + [name]), |r.names|)
  }

  /**
    With the 32-bit registry a thread id of 2^31 is never found again: its
    second attachment is filed under a second directory. And thread 5, seen
    after thread 2^32 + 5, is taken for it and shares its directory.
  */
  lemma AsWrittenWideThreadIds()
    ensures var (r1, i1) := AssignAsWritten(EmptyRegistry, 0x8000_0000, "Alice");
      var (r2, i2) := AssignAsWritten(r1, 0x8000_0000, "Alice");
      r2.names[i1] == "Alice" && r2.names[i2] == "Alice(2)"
    ensures var (r1, i1) := AssignAsWritten(EmptyRegistry, 0x1_0000_0005, "Alice");
      var (r2, i2) := AssignAsWritten(r1, 5, "Bob");
      i1 == i2 && r2.names[i2] == "Alice"
  {
    var (r1, i1) := AssignAsWritten(EmptyRegistry, 0x8000_0000, "Alice");
    FreshNameProperties([], "Alice");
    assert Repeat(0) == "";
    assert r1 == Registry([-0x8000_0000], ["Alice"]);
    assert IndexOf(r1.threadIds, 0x8000_0000) == -1;
    FreshNameProperties(["Alice"], "Alice");
    SuffixCountUnique(["Alice"], "Alice", 1);
    assert Repeat(1) == "(2)";
    assert "Alice" + Repeat(0) == "Alice";

    var (s1, j1) := AssignAsWritten(EmptyRegistry, 0x1_0000_0005, "Alice");
    assert s1.threadIds == [5];
  }
}
