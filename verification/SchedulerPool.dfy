// How a pool of rings shares kernel polling threads: contiguous groups, each polled for by
// its first ring.
module SchedulerPools {
  import opened Options

  // wq_fd, as the ring whose descriptor it is, and sq_thread_cpu.
  datatype Config = Config(attach: Option<nat>, cpu: Option<int>)

  function GroupSize(n: nat, m: nat): nat
    requires m > 0
  {
    (n + m - 1) / m
  }

  function Group(i: nat, size: nat): nat
    requires size > 0
  {
    i / size
  }

  lemma DivMod(x: int, d: int)
    requires d > 0
    ensures x == (x / d) * d + x % d && 0 <= x % d < d
  {
  }

  // q is the quotient of x by d.
  lemma Quotient(x: int, d: int, q: int)
    requires d > 0 && q * d <= x < q * d + d
    ensures x / d == q
  {
    DivMod(x, d);
    Product(x / d, q - 1, d);
    Product(x / d, q + 1, d);
  }

  // The least size with which m groups cover all rings, and the number of groups that it gives.
  lemma GroupsSuffice(n: nat, m: nat)
    requires m > 0
    ensures forall size: nat :: GroupSize(n, m) <= size <==> size * m >= n
    ensures n > 0 ==> GroupSize(n, m) > 0 && (n - 1) / GroupSize(n, m) < m
  {
    var size := GroupSize(n, m);
    DivMod(n + m - 1, m);
    forall other: nat
      ensures size <= other <==> other * m >= n
    {
      if size <= other {
        Product(size, other, m);
      } else {
        Product(other + 1, size, m);
      }
    }
    if n > 0 {
      Product(0, size, m);
      assert size * m >= n;
      DivMod(n - 1, size);
      Product(m, (n - 1) / size, size);
    }
  }

  lemma Product(a: int, b: int, c: int)
    requires c >= 0
    ensures a <= b ==> a * c <= b * c
    ensures b <= a ==> b * c <= a * c
  {
  }

  predicate IsLeader(i: nat, size: nat)
    requires size > 0
  {
    i == Group(i, size) * size
  }

  // The leaders of the first n rings.
  function Leaders(n: nat, size: nat): set<nat>
    requires size > 0
  {
    set i | 0 <= i < n && IsLeader(i, size)
  }

  // A new leader comes with every group.
  lemma {:induction false} LeaderCount(n: nat, size: nat)
    requires size > 0
    ensures |Leaders(n, size)| == if n == 0 then 0 else (n - 1) / size + 1
  {
    if n == 0 {
      assert Leaders(0, size) == {};
    } else {
      LeaderCount(n - 1, size);
      DivMod(n - 1, size);
      assert Leaders(n, size) == if IsLeader(n - 1, size) then Leaders(n - 1, size) + {n - 1} else Leaders(n - 1, size);
      if n > 1 {
        hide Leaders, Group;
        GroupBefore(n - 1, size);
      }
    }
  }

  // Going back by one leaves the group just from a leader.
  lemma GroupBefore(i: nat, size: nat)
    requires size > 0 && i > 0
    ensures (i - 1) / size == if IsLeader(i, size) then i / size - 1 else i / size
  {
    DivMod(i, size);
    var g := i / size;
    if IsLeader(i, size) {
      assert (g - 1) * size == i - size;
      Quotient(i - 1, size, g - 1);
    } else {
      Quotient(i - 1, size, g);
    }
  }

  // The first ring of a ring's group leads it, and comes before the others.
  lemma LeaderIsFirst(i: nat, size: nat)
    requires size > 0
    ensures var leader := Group(i, size) * size;
            leader <= i < leader + size && Group(leader, size) == Group(i, size) && IsLeader(leader, size)
  {
    DivMod(i, size);
    Quotient(Group(i, size) * size, size, Group(i, size));
  }

  // The first ring of each group has a polling thread of its own, on the group's cpu if one is
  // given, and the others attach to the first.
  predicate Grouped(configs: seq<Config>, size: nat, cpus: seq<int>)
    requires size > 0
  {
    forall i :: 0 <= i < |configs| ==>
      configs[i] ==
        if i % size > 0 then Config(Some(i - i % size), None)
        else Config(None, if i / size < |cpus| then Some(cpus[i / size]) else None)
  }

  // The rings with a polling thread of their own.
  function Pollers(configs: seq<Config>): set<nat> {
    set i | 0 <= i < |configs| && configs[i].attach.None?
  }

  // The constructor's loop, which also gives the group size that it logs.  A ring attaches only
  // to one that exists already.
  method Configure(n: nat, sqpoll: bool, m: nat, cpus: seq<int>) returns (configs: seq<Config>, size: nat)
    ensures |configs| == n
    ensures !(sqpoll && m > 0) ==> forall i :: 0 <= i < n ==> configs[i] == Config(None, None)
    ensures sqpoll && m > 0 && n > 0 ==>
              && size > 0 && size * m >= n && (size - 1) * m < n
              && Grouped(configs, size, cpus)
              && |Pollers(configs)| <= m
              && forall i :: 0 <= i < n && configs[i].attach.Some? ==> configs[i].attach.value < i
  {
    hide Grouped, ConfigOf, Leaders, Pollers, GroupSize;
    var grouping := sqpoll && m > 0;
    size := if grouping then (n + m - 1) / m else 1;
    if grouping {
      LeastSize(n, m);
    }
    configs := [];
    var i := 0;
    while i < n
      invariant 0 <= i <= n && |configs| == i
      invariant !grouping ==> forall k :: 0 <= k < i ==> configs[k] == Config(None, None)
      invariant grouping && i < n ==> size > 0
      invariant grouping && i > 0 ==> size > 0 && forall k :: 0 <= k < i ==> configs[k] == ConfigOf(k, size, cpus)
    {
      var cfg := Config(None, None);
      if grouping {
        cfg := Assign(cfg, i, size, cpus);
      }
      configs := configs + [cfg];
      i := i + 1;
    }
    if grouping && n > 0 {
      LeaderCount(n, size);
      ConfigsAreGrouped(configs, size, cpus);
    }
  }

  // The part of the loop's body that depends on the ring's place in its group.
  method Assign(base: Config, i: nat, size: nat, cpus: seq<int>) returns (cfg: Config)
    requires size > 0 && base == Config(None, None)
    ensures cfg == ConfigOf(i, size, cpus)
  {
    cfg := base;
    var g := i / size;
    var leader := g * size;
    if i == leader {
      if g < |cpus| {
        cfg := cfg.(cpu := Some(cpus[g]));
      }
    } else {
      cfg := cfg.(attach := Some(leader));
    }
  }

  lemma LeastSize(n: nat, m: nat)
    requires m > 0
    ensures var size := (n + m - 1) / m;
            n > 0 ==> size > 0 && size * m >= n && (size - 1) * m < n && (n - 1) / size < m
    ensures n == 0 ==> (n + m - 1) / m == 0
  {
    GroupsSuffice(n, m);
    assert n > 0 ==> !(GroupSize(n, m) <= GroupSize(n, m) - 1);
    if n == 0 {
      Quotient(m - 1, m, 0);
    }
  }

  function ConfigOf(i: nat, size: nat, cpus: seq<int>): Config
    requires size > 0
  {
    if !IsLeader(i, size) then Config(Some(Group(i, size) * size), None)
    else Config(None, if Group(i, size) < |cpus| then Some(cpus[Group(i, size)]) else None)
  }

  lemma ConfigsAreGrouped(configs: seq<Config>, size: nat, cpus: seq<int>)
    requires size > 0 && forall k :: 0 <= k < |configs| ==> configs[k] == ConfigOf(k, size, cpus)
    ensures Grouped(configs, size, cpus) && Pollers(configs) == Leaders(|configs|, size)
    ensures forall i :: 0 <= i < |configs| && configs[i].attach.Some? ==> configs[i].attach.value < i
  {
    forall i | 0 <= i < |configs|
      ensures i - i % size == Group(i, size) * size
      ensures configs[i].attach.Some? ==> configs[i].attach.value < i
    {
      DivMod(i, size);
      LeaderIsFirst(i, size);
    }
  }
}
