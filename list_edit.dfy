/** `Array.prototype.splice` on a list, and the two edits the form builders
    make with it: removing one entry and moving one entry to another
    position. */
module ListEdit {
  /** Where `splice` starts: a negative start counts back from the end;
      both are clamped to the list. */
  function SpliceStart(start: int, len: nat): (r: nat)
    ensures r <= len
    ensures 0 <= start <= len ==> r == start
    ensures start > len ==> r == len
    ensures start < 0 && len + start >= 0 ==> r == len + start
    ensures len + start < 0 ==> r == 0
  {
    if start < 0 then (if len + start < 0 then 0 else len + start)
    else if start > len then len
    else start
  }

  /** How many entries `splice` removes from `start`: the count clamped to
      what is left of the list. */
  function SpliceCount(start: nat, deleteCount: int, len: nat): (r: nat)
    requires start <= len
    ensures start + r <= len
    ensures 0 <= deleteCount <= len - start ==> r == deleteCount
  {
    if deleteCount < 0 then 0
    else if deleteCount > len - start then len - start
    else deleteCount
  }

  /** The list after a `splice`, and the entries it returned. */
  datatype Spliced<T> = Spliced(result: seq<T>, removed: seq<T>)

  /** `s.splice(start, deleteCount, ...items)`. */
  function Splice<T>(s: seq<T>, start: int, deleteCount: int, items: seq<T>): Spliced<T> {
    var k := SpliceStart(start, |s|);
    var n := SpliceCount(k, deleteCount, |s|);
    Spliced(s[..k] + items + s[k + n..], s[k..k + n])
  }

  lemma SpliceShape<T>(s: seq<T>, start: int, deleteCount: int, items: seq<T>)
    ensures var k := SpliceStart(start, |s|);
      var n := SpliceCount(k, deleteCount, |s|);
      var r := Splice(s, start, deleteCount, items);
      r.removed == s[k..k + n] && r.result == s[..k] + items + s[k + n..]
  {
  }

  /** Splicing the removed entries back in at the same place, in place of
      the inserted ones, restores the list. */
  lemma SpliceUndo<T>(s: seq<T>, start: int, deleteCount: int, items: seq<T>)
    ensures var k := SpliceStart(start, |s|);
      var r := Splice(s, start, deleteCount, items);
      Splice(r.result, k, |items|, r.removed).result == s
      && Splice(r.result, k, |items|, r.removed).removed == items
  {
    var k := SpliceStart(start, |s|);
    var n := SpliceCount(k, deleteCount, |s|);
    var r := Splice(s, start, deleteCount, items);
    assert r.result[..k] == s[..k];
    assert r.result[k..k + |items|] == items;
    assert r.result[k + |items|..] == s[k + n..];
    assert s[..k] + s[k..k + n] + s[k + n..] == s;
  }

  /** `s.splice(i, 1)`. */
  function RemoveAt<T>(s: seq<T>, i: int): seq<T> {
    Splice(s, i, 1, []).result
  }

  /** Removing an index of the list drops exactly that entry and keeps the
      others in order; an index past the end changes nothing; a negative
      index counts back from the end. */
  lemma RemoveAtIndex<T>(s: seq<T>, i: int)
    ensures 0 <= i < |s| ==> (RemoveAt(s, i) == s[..i] + s[i + 1..]
      && |RemoveAt(s, i)| == |s| - 1
      && multiset(RemoveAt(s, i)) + multiset{s[i]} == multiset(s))
    ensures i >= |s| ==> RemoveAt(s, i) == s
    ensures -|s| <= i < 0 ==> RemoveAt(s, i) == s[..|s| + i] + s[|s| + i + 1..]
  {
    if 0 <= i < |s| {
      assert s == s[..i] + [s[i]] + s[i + 1..];
    }
    if i >= |s| {
      assert s[..|s|] == s;
    }
  }

  /** The drop handler: take the entry at `from` out, then insert it at
      `to` in the shortened list; dropping an entry on itself does nothing. */
  function Move<T>(s: seq<T>, from: nat, to: nat): seq<T>
    requires from < |s| && to < |s|
  {
    if from == to then s
    else
      var cut := Splice(s, from, 1, []);
      Splice(cut.result, to, 0, [cut.removed[0]]).result
  }

  /** Inserting `x` at `to` adds `x` to the entries, and removing index
      `to` again gives back the list. */
  lemma InsertAt<T>(rest: seq<T>, to: nat, x: T)
    requires to <= |rest|
    ensures var r := rest[..to] + [x] + rest[to..];
      |r| == |rest| + 1 && r[to] == x
      && multiset(r) == multiset(rest) + multiset{x}
      && RemoveAt(r, to) == rest
  {
    var r := rest[..to] + [x] + rest[to..];
    RemoveAtIndex(r, to);
    assert r[..to] == rest[..to];
    assert r[to + 1..] == rest[to..];
    assert rest[..to] + rest[to..] == rest;
    assert multiset(r) == multiset(rest[..to]) + multiset{x} + multiset(rest[to..]);
    assert multiset(rest[..to] + rest[to..]) == multiset(rest[..to]) + multiset(rest[to..]);
  }

  /** A move keeps the length and the entries (a permutation), puts the
      moved entry at `to`, and keeps every other entry in its relative
      order; dropping on the same index is a no-op. */
  lemma {:induction false} MoveSpec<T>(s: seq<T>, from: nat, to: nat)
    requires from < |s| && to < |s|
    ensures var r := Move(s, from, to);
      |r| == |s| && r[to] == s[from]
      && multiset(r) == multiset(s)
      && RemoveAt(r, to) == RemoveAt(s, from)
      && (from == to ==> r == s)
  {
    if from != to {
      var rest := s[..from] + s[from + 1..];
      RemoveAtIndex(s, from);
      SpliceShape(s, from, 1, []);
      SpliceShape(rest, to, 0, [s[from]]);
      assert Move(s, from, to) == rest[..to] + [s[from]] + rest[to..];
      InsertAt(rest, to, s[from]);
    }
  }
}
