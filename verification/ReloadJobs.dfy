/** `Reload` (cmd/skills-fs/config.go) as one list of calls, carried out in order up to the first that fails. */
module ReloadJobs {
  import opened Bytes
  import opened Paths
  import opened Entries
  import opened Trie
  import opened Diff
  import opened Filesystem

  datatype Job = ToUnmount(path: string) | ToMount(entry: MountEntry)

  ghost function Do(cfg: FsConfig, t: Trie, job: Job, now: int): (r: (Trie, Option<Errno>))
    requires Root in t.nodes
    ensures Root in r.0.nodes
  {
    match job
    case ToUnmount(path) => Unmount(t, path)
    case ToMount(e) => Mount(cfg, t, e.path, e, now)
  }

  ghost function DoAll(cfg: FsConfig, t: Trie, jobs: seq<Job>, now: int): (r: (Trie, Option<Errno>))
    requires Root in t.nodes
    ensures Root in r.0.nodes
    decreases |jobs|
  {
    if jobs == [] then (t, None)
    else
      var (t1, err) := Do(cfg, t, jobs[0], now);
      if err.Some? then (t1, err) else DoAll(cfg, t1, jobs[1..], now)
  }

  function Unmounts(es: seq<MountEntry>): seq<Job> {
    seq(|es|, i requires 0 <= i < |es| => ToUnmount(es[i].path))
  }

  function Mounts(es: seq<MountEntry>): seq<Job> {
    seq(|es|, i requires 0 <= i < |es| => ToMount(es[i]))
  }

  function Remounts(cs: seq<Change>): seq<Job> {
    seq(2 * |cs|, i requires 0 <= i < 2 * |cs| =>
      if i % 2 == 0 then ToUnmount(cs[i / 2].path) else ToMount(cs[i / 2].after))
  }

  lemma {:induction false} DoAllInTwo(cfg: FsConfig, t: Trie, a: seq<Job>, b: seq<Job>, now: int)
    requires Root in t.nodes
    ensures DoAll(cfg, t, a + b, now)
         == if DoAll(cfg, t, a, now).1.Some? then DoAll(cfg, t, a, now)
            else DoAll(cfg, DoAll(cfg, t, a, now).0, b, now)
    decreases |a|
  {
    hide Do;
    if a == [] {
      assert [] + b == b;
    } else {
      assert (a + b)[0] == a[0] && (a + b)[1..] == a[1..] + b;
      if Do(cfg, t, a[0], now).1.None? {
        DoAllInTwo(cfg, Do(cfg, t, a[0], now).0, a[1..], b, now);
      }
    }
  }

  lemma DoOne(cfg: FsConfig, t: Trie, job: Job, now: int)
    requires Root in t.nodes
    ensures DoAll(cfg, t, [job], now) == Do(cfg, t, job, now)
  {
    hide Do;
    assert [job][1..] == [];
  }

  lemma {:induction false} UnmountsInOrder(cfg: FsConfig, t: Trie, es: seq<MountEntry>, now: int)
    requires Root in t.nodes
    ensures UnmountAll(t, es) == DoAll(cfg, t, Unmounts(es), now)
    decreases |es|
  {
    hide Unmount;
    if es != [] {
      var init, last := es[..|es| - 1], ToUnmount(es[|es| - 1].path);
      UnmountsInOrder(cfg, t, init, now);
      assert Unmounts(es) == Unmounts(init) + [last];
      DoAllInTwo(cfg, t, Unmounts(init), [last], now);
      DoOne(cfg, UnmountAll(t, init).0, last, now);
    }
  }

  lemma {:induction false} MountsInOrder(cfg: FsConfig, t: Trie, es: seq<MountEntry>, now: int)
    requires Root in t.nodes
    ensures MountAll(cfg, t, es, now) == DoAll(cfg, t, Mounts(es), now)
    decreases |es|
  {
    hide Mount;
    if es != [] {
      var init, last := es[..|es| - 1], ToMount(es[|es| - 1]);
      MountsInOrder(cfg, t, init, now);
      assert Mounts(es) == Mounts(init) + [last];
      DoAllInTwo(cfg, t, Mounts(init), [last], now);
      DoOne(cfg, MountAll(cfg, t, init, now).0, last, now);
    }
  }

  lemma RemountTwo(cfg: FsConfig, t: Trie, c: Change, now: int)
    requires Root in t.nodes
    ensures Remount(cfg, t, c, now) == DoAll(cfg, t, [ToUnmount(c.path), ToMount(c.after)], now)
  {
    hide Mount, Unmount;
    assert [ToUnmount(c.path), ToMount(c.after)] == [ToUnmount(c.path)] + [ToMount(c.after)];
    DoAllInTwo(cfg, t, [ToUnmount(c.path)], [ToMount(c.after)], now);
    DoOne(cfg, t, ToUnmount(c.path), now);
    DoOne(cfg, Unmount(t, c.path).0, ToMount(c.after), now);
  }

  lemma {:induction false} RemountsInOrder(cfg: FsConfig, t: Trie, cs: seq<Change>, now: int)
    requires Root in t.nodes
    ensures RemountAll(cfg, t, cs, now) == DoAll(cfg, t, Remounts(cs), now)
    decreases |cs|
  {
    hide Remount, Do;
    if cs != [] {
      var init, c := cs[..|cs| - 1], cs[|cs| - 1];
      var two := [ToUnmount(c.path), ToMount(c.after)];
      RemountsInOrder(cfg, t, init, now);
      assert Remounts(cs) == Remounts(init) + two;
      DoAllInTwo(cfg, t, Remounts(init), two, now);
      RemountTwo(cfg, RemountAll(cfg, t, init, now).0, c, now);
    }
  }

  /**
   * A reload unmounts what was removed, then unmounts and mounts each changed entry in turn, then mounts what was
   * added; it does nothing after the first call that fails, and answers that call's error.
   */
  lemma ReloadInOrder(cfg: FsConfig, t: Trie, current: seq<MountEntry>, desired: seq<MountEntry>, now: int)
    requires Root in t.nodes
    ensures var d := DiffOf(current, desired);
            Reload(cfg, t, current, desired, now)
            == DoAll(cfg, t, Unmounts(d.removed) + Remounts(d.modified) + Mounts(d.added), now)
  {
    hide Do, DoAll, UnmountAll, RemountAll, MountAll, Unmounts, Mounts, Remounts, DiffOf;
    var d := DiffOf(current, desired);
    UnmountsInOrder(cfg, t, d.removed, now);
    var t1 := UnmountAll(t, d.removed).0;
    RemountsInOrder(cfg, t1, d.modified, now);
    DoAllInTwo(cfg, t, Unmounts(d.removed), Remounts(d.modified), now);
    DoAllInTwo(cfg, t, Unmounts(d.removed) + Remounts(d.modified), Mounts(d.added), now);
    MountsInOrder(cfg, RemountAll(cfg, t1, d.modified, now).0, d.added, now);
  }
}
