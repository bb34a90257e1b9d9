/** `InodeAllocator`: stable inodes keyed by disambiguated path, kept across tree rebuilds. */
module Inodes {
  import opened TreeState

  ghost predicate Grows(a: map<nat, string>, b: map<nat, string>) {
    forall i | i in a :: i in b && b[i] == a[i]
  }

  /** An injective map has no more keys than its values allow. */
  lemma {:induction false} InjectiveSize<K, V>(m: map<K, V>, values: set<V>)
    requires forall k | k in m :: m[k] in values
    requires forall j, k | j in m && k in m && m[j] == m[k] :: j == k
    ensures |m| <= |values|
    decreases |m|
  {
    if m != map[] {
      var k :| k in m.Keys;
      var rest := m - {k};
      assert rest.Keys == m.Keys - {k};
      assert |rest.Keys| == |m.Keys| - 1;
      InjectiveSize(rest, values - {m[k]});
    }
  }

  class InodeAllocator {
    var paths: map<string, nat>
    var next: nat
    /** Every inode ever handed out, with the one path it was handed out for. */
    ghost var issued: map<nat, string>

    ghost predicate Valid()
      reads this
    {
      "" in paths && paths[""] == ROOT &&
      (forall p | p in paths :: paths[p] in issued && issued[paths[p]] == p) &&
      (forall i | i in issued :: i < next)
    }

    constructor New()
      ensures Valid() && paths == map["" := ROOT] && next == 2
    {
      paths := map["" := ROOT];
      next := 2;
      issued := map[ROOT := ""];
    }

    /** `Clone`: the same paths and the same next inode. */
    constructor Clone(other: InodeAllocator)
      requires other.Valid()
      ensures Valid() && paths == other.paths && next == other.next && issued == other.issued
    {
      paths := other.paths;
      next := other.next;
      issued := other.issued;
    }

    /** The inode for `path`: the one it has, or a number never handed out before. */
    method Intern(path: string) returns (inode: nat)
      requires Valid()
      modifies this
      ensures Valid() && Grows(old(issued), issued)
      ensures path in paths && paths[path] == inode
      ensures path in old(paths) ==> paths == old(paths) && next == old(next)
      ensures path !in old(paths) ==>
                paths == old(paths)[path := inode] && inode !in old(issued) && next == old(next) + 1
    {
      if path in paths {
        return paths[path];
      }
      inode := next;
      next := next + 1;
      paths := paths[path := inode];
      issued := issued[inode := path];
    }

    /** Drop retired paths once they outnumber live ones; numbers already used stay used. */
    method PruneRetired(nodes: map<nat, Node>)
      requires Valid() && ROOT in nodes
      modifies `paths
      ensures Valid()
      ensures |paths| <= 2 * |nodes|
      ensures forall p | p in paths :: p in old(paths) && paths[p] == old(paths)[p]
      ensures forall p | p in old(paths) && old(paths)[p] in nodes :: p in paths
      ensures |old(paths)| <= 2 * |nodes| ==> paths == old(paths)
      ensures |old(paths)| > 2 * |nodes| ==> forall p | p in paths :: paths[p] in nodes
    {
      if |paths| <= 2 * |nodes| {
        return;
      }
      paths := map p | p in paths && paths[p] in nodes :: paths[p];
      InjectiveSize(paths, nodes.Keys);
    }
  }
}
