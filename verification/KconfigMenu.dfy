/**
  menu_finalize and the walk of conf_write on the pointers of the menu entries.
 */
module KconfigMenu {
  import opened Options
  import opened KconfigForest

  class MenuTree {
    var list: map<Id, Id>
    var next: map<Id, Id>
    var parent: map<Id, Id>
    const prompt: set<Id>   // entries with a prompt text
    const syms: set<Id>     // entries with a symbol
    const below: set<(Id, Id)>  // an entry and a sibling, where the dependency tests put the sibling below the entry

    ghost function L(): Links
      reads this
    {
      Links(list, next, parent)
    }

    ghost function R(): Rules {
      Rules(prompt, syms, below)
    }

    /** Sibling list f at head, with parent p. */
    ghost predicate At(head: Option<Id>, f: Forest, p: Option<Id>)
      reads this
    {
      Holds(L(), head, f, None) && Parents(L(), p, f) && NoDup(Pre(f)) && (p.Some? ==> p.value !in Pre(f))
    }

    /** menu_finalize on entry m, whose siblings follow it in f. */
    method Finalize(m: Id, ghost f: Forest, ghost p: Option<Id>) returns (ghost f': Forest)
      requires f.Item? && f.id == m && At(Some(m), f, p)
      modifies this
      ensures f'.Item? && f'.id == m && At(Some(m), f', p) && Pre(f') == Pre(f) && |Pre(f'.rest)| <= |Pre(f.rest)|
      ensures Prompted(prompt, f'.kids)
      ensures f' == Arranged(R(), f)
      ensures OnlyChanged(old(L()), L(), Pre(f))
      decreases |Pre(f)|, 1
    {
      f' := f;
      assert Holds(L(), Get(list, m), f.kids, None);
      if m in list {
        f' := FinalizeKids(m, f, p);
      } else if m in syms {
        f' := Absorb(m, f, p);
      }
      f' := HoistKids(m, f', p);
    }

    /** The entries below m, one after the other; an entry may absorb the ones after it. */
    method FinalizeKids(m: Id, ghost f: Forest, ghost p: Option<Id>) returns (ghost f': Forest)
      requires f.Item? && f.id == m && At(Some(m), f, p)
      modifies this
      ensures f'.Item? && f'.id == m && At(Some(m), f', p) && Pre(f') == Pre(f) && |Pre(f'.rest)| <= |Pre(f.rest)|
      ensures KidsPrompted(prompt, f'.kids) && f' == Item(m, EachArranged(R(), f.kids), f.rest)
      ensures OnlyChanged(old(L()), L(), Pre(f.kids))
      decreases |Pre(f)|, 0
    {
      NoDupItem(f);
      ghost var done, cur := Nil, f.kids;
      var menu := Get(list, m);
      while menu.Some?
        invariant Holds(L(), Get(list, m), done, menu) && Holds(L(), menu, cur, None)
        invariant Parents(L(), Some(m), done) && Parents(L(), Some(m), cur)
        invariant Pre(done) + Pre(cur) == Pre(f.kids) && KidsPrompted(prompt, done)
        invariant Append(done, EachArranged(R(), cur)) == EachArranged(R(), f.kids)
        invariant OnlyChanged(old(L()), L(), Pre(f.kids))
        decreases |Pre(cur)|
      {
        NoDupParts(Pre(done), Pre(cur));
        ghost var l := L();
        cur := Finalize(menu.value, cur, Some(m));
        AppendItem(done, cur.id, cur.kids, EachArranged(R(), cur.rest));
        done := Advance(l, L(), Get(list, m), done, cur, Some(m));
        cur := cur.rest;
        menu := Get(next, menu.value);
      }
      f' := Item(m, done, f.rest);
      AppendNil(done);
      assert Pre(f') == Pre(f) by { assert Pre(Nil) == []; }
      HoldsFrame(old(L()), L(), Get(next, m), f.rest, None);
      ParentsFrame(old(L()), L(), p, f.rest);
    }

    /** Following siblings become the entries below m, as long as the dependency tests say so. */
    method Absorb(m: Id, ghost f: Forest, ghost p: Option<Id>) returns (ghost f': Forest)
      requires f.Item? && f.id == m && At(Some(m), f, p) && m !in list
      modifies this
      ensures f'.Item? && f'.id == m && At(Some(m), f', p) && Pre(f') == Pre(f) && |Pre(f'.rest)| <= |Pre(f.rest)|
      ensures KidsPrompted(prompt, f'.kids) && (f'.kids, f'.rest) == TakenBelow(R(), m, f.rest)
      ensures OnlyChanged(old(L()), L(), Pre(f))
      decreases |Pre(f)|, 0
    {
      NoDupItem(f);
      assert Holds(L(), Get(list, m), f.kids, None);
      var last;
      ghost var done, cur, menu;
      last, done, cur, menu := AbsorbAll(m, f.rest, p);
      ghost var l := L();
      f' := Item(m, done, cur);
      assert Pre(f') == Pre(f);
      if last.Some? {
        Relink(m, last.value, done, cur, menu, p);
        ChangedTwice(old(L()), l, L(), Pre(f.rest), [m, last.value], Pre(f));
      }
    }

    /** The loop over the siblings of m; the result is the last one that depends on it. */
    method AbsorbAll(m: Id, ghost rest: Forest, ghost p: Option<Id>)
        returns (last: Option<Id>, ghost done: Forest, ghost cur: Forest, ghost stop: Option<Id>)
      requires At(Get(next, m), rest, p) && m !in Pre(rest)
      modifies this
      ensures Holds(L(), Get(next, m), done, stop) && Holds(L(), stop, cur, None)
      ensures Parents(L(), Some(m), done) && Parents(L(), p, cur)
      ensures Pre(done) + Pre(cur) == Pre(rest) && KidsPrompted(prompt, done)
      ensures if done.Nil? then last.None? else last == Some(LastId(done))
      ensures (done, cur) == TakenBelow(R(), m, rest)
      ensures OnlyChanged(old(L()), L(), Pre(rest))
      decreases |Pre(rest)|, 3
    {
      done, cur := Nil, rest;
      var menu := Get(next, m);
      last := None;
      while menu.Some?
        invariant Holds(L(), Get(next, m), done, menu) && Holds(L(), menu, cur, None)
        invariant Parents(L(), Some(m), done) && Parents(L(), p, cur)
        invariant Pre(done) + Pre(cur) == Pre(rest) && KidsPrompted(prompt, done)
        invariant if done.Nil? then last.None? else last == Some(LastId(done))
        invariant TakenBelow(R(), m, rest) == TakenAfter(R(), m, done, cur)
        invariant OnlyChanged(old(L()), L(), Pre(rest))
        decreases |Pre(cur)|
      {
        if (m, menu.value) !in below {
          break;
        }
        NoDupParts(Pre(done), Pre(cur));
        done, cur := AbsorbOne(menu.value, m, done, cur, Get(next, m), p);
        last := menu;
        menu := Get(next, menu.value);
      }
      AppendNil(done);
      stop := menu;
    }

    /** The next sibling is finalized and gets parent m. */
    method AbsorbOne(menu: Id, m: Id, ghost done: Forest, ghost cur: Forest, ghost head: Option<Id>,
                     ghost p: Option<Id>)
        returns (ghost done': Forest, ghost cur': Forest)
      requires Holds(L(), head, done, Some(menu)) && Parents(L(), Some(m), done) && KidsPrompted(prompt, done)
      requires cur.Item? && cur.id == menu && At(Some(menu), cur, p) && NoDup(Pre(done) + Pre(cur))
      modifies this
      ensures Holds(L(), head, done', Get(next, menu)) && Parents(L(), Some(m), done') && KidsPrompted(prompt, done')
      ensures Holds(L(), Get(next, menu), cur', None) && Parents(L(), p, cur') && |Pre(cur')| < |Pre(cur)|
      ensures done'.Item? && LastId(done') == menu && Pre(done') + Pre(cur') == Pre(done) + Pre(cur)
      ensures (m, menu) in below ==> TakenAfter(R(), m, done', cur') == TakenAfter(R(), m, done, cur)
      ensures OnlyChanged(old(L()), L(), Pre(cur))
      decreases |Pre(cur)|, 2
    {
      ghost var l := L();
      ghost var c := Finalize(menu, cur, p);
      ghost var l1 := L();
      parent := parent[menu := m];
      Adopted(l1, L(), c, p, m);
      done' := Advance(l, L(), head, done, c, Some(m));
      cur' := c.rest;
      AppendItem(done, c.id, c.kids, TakenBelow(R(), m, c.rest).0);
    }

    /** The siblings of m up to last become the entries below m. */
    method Relink(m: Id, last: Id, ghost done: Forest, ghost cur: Forest, ghost menu: Option<Id>, ghost p: Option<Id>)
      requires done.Item? && LastId(done) == last && Holds(L(), Get(next, m), done, menu) && Holds(L(), menu, cur, None)
      requires Parents(L(), Some(m), done) && Parents(L(), p, cur)
      requires NoDup(Pre(done) + Pre(cur)) && m !in Pre(done) && m !in Pre(cur)
      modifies `list, `next
      ensures Holds(L(), Get(list, m), done, None) && Holds(L(), Get(next, m), cur, None)
      ensures Parents(L(), Some(m), done) && Parents(L(), p, cur)
      ensures last in Pre(done) && OnlyChanged(old(L()), L(), [m, last])
    {
      ghost var l := L();
      LastIdIn(done);
      assert Holds(l, Get(next, m), done, menu);
      LastNext(l, Get(next, m), done, menu);
      list := list[m := next[m]];
      next := Put(next, m, Get(next, last));
      next := next - {last};
      Relinked(l, L(), m, done, cur, menu);
      ParentsFrame(l, L(), Some(m), done);
      ParentsFrame(l, L(), p, cur);
    }

    /** Entries below a promptless entry move up behind it. */
    method HoistKids(m: Id, ghost f: Forest, ghost p: Option<Id>) returns (ghost f': Forest)
      requires f.Item? && f.id == m && At(Some(m), f, p) && KidsPrompted(prompt, f.kids)
      modifies this
      ensures f' == Item(m, Hoist(prompt, f.kids), f.rest) && At(Some(m), f', p)
      ensures Pre(f') == Pre(f) && Prompted(prompt, f'.kids)
      ensures OnlyChanged(old(L()), L(), Pre(f.kids))
    {
      NoDupItem(f);
      HoistPre(prompt, f.kids);
      HoistPrompted(prompt, f.kids);
      ghost var done, cur := Nil, f.kids;
      var menu := Get(list, m);
      while menu.Some?
        invariant Holds(L(), Get(list, m), done, menu) && Holds(L(), menu, cur, None)
        invariant Parents(L(), Some(m), done) && Parents(L(), Some(m), cur)
        invariant Pre(done) + Pre(cur) == Pre(f.kids)
        invariant Append(done, Hoist(prompt, cur)) == Hoist(prompt, f.kids)
        invariant OnlyChanged(old(L()), L(), Pre(f.kids))
        decreases |Pre(cur)|
      {
        NoDupParts(Pre(done), Pre(cur));
        ghost var l := L();
        ghost var c := cur;
        if menu.value in list && menu.value !in prompt {
          c := HoistOne(menu.value, m, cur);
        }
        AppendItem(done, c.id, c.kids, Hoist(prompt, c.rest));
        done := Advance(l, L(), Get(list, m), done, c, Some(m));
        cur := c.rest;
        menu := Get(next, menu.value);
      }
      f' := Item(m, done, f.rest);
      assert done == Hoist(prompt, f.kids) by { AppendNil(done); }
      HoldsFrame(old(L()), L(), Get(next, m), f.rest, None);
      ParentsFrame(old(L()), L(), p, f.rest);
    }

    /** The entries below menu are linked in between it and its next sibling, as children of m. */
    method HoistOne(menu: Id, m: Id, ghost c: Forest) returns (ghost c': Forest)
      requires c.Item? && c.id == menu && c.kids.Item? && At(Some(menu), c, Some(m))
      modifies this
      ensures c' == Item(menu, Nil, Append(c.kids, c.rest)) && At(Some(menu), c', Some(m)) && Pre(c') == Pre(c)
      ensures OnlyChanged(old(L()), L(), Pre(c))
    {
      NoDupItem(c);
      ghost var l := L();
      assert Holds(L(), Get(list, menu), c.kids, None);
      var last := Reparent(list[menu], m, c.kids, menu);
      ghost var l1 := L();
      next := Put(next, last, Get(next, menu));
      next := next[menu := list[menu]];
      list := list - {menu};
      c' := Item(menu, Nil, Append(c.kids, c.rest));
      LastIdIn(c.kids);
      HoistedLists(l, L(), c);
      HoistedParents(l, l1, L(), c, m);
      AppendPre(c.kids, c.rest);
      assert Pre(c') == Pre(c);
    }

    /** Gives the siblings from first on the parent m; the result is the last of them. */
    method Reparent(first: Id, m: Id, ghost f: Forest, ghost p: Id) returns (last: Id)
      requires f.Item? && At(Some(first), f, Some(p))
      modifies `parent
      ensures last == LastId(f) && Parents(L(), Some(m), f)
      ensures forall x :: x !in Pre(f) ==> Get(parent, x) == old(Get(parent, x))
    {
      ghost var done, cur := Nil, f;
      last := first;
      while true
        invariant cur.Item? && cur.id == last && Holds(L(), Some(last), cur, None)
        invariant Parents(L(), Some(m), done) && Parents(L(), Some(p), cur)
        invariant Append(done, cur) == f
        invariant forall x :: x !in Pre(f) ==> Get(parent, x) == old(Get(parent, x))
        decreases cur
      {
        ghost var l := L();
        parent := parent[last := m];
        ghost var done' := ReparentStep(l, L(), done, cur, f, m, p);
        assert Holds(L(), Get(next, last), cur.rest, None);
        if last !in next {
          AppendNil(done');
          return;
        }
        done, cur := done', cur.rest;
        last := next[last];
      }
    }

    /** The walk of conf_write below root, along list, next and parent links. */
    method Walk(root: Id, ghost f: Forest) returns (visited: seq<Id>)
      requires At(Get(list, root), f, Some(root)) && root !in next && root !in parent
      ensures visited == Pre(f)
    {
      visited := [];
      var menu := Get(list, root);
      ghost var cur, up, path := f, root, Root;
      assert visited + (Pre(cur) + Later(path)) == Pre(f);
      while menu.Some?
        invariant menu.Some? ==>
          Holds(L(), menu, cur, None) && Parents(L(), Some(up), cur) && Within(L(), root, up, path)
        invariant menu.None? ==> Pre(cur) + Later(path) == []
        invariant visited + (Pre(cur) + Later(path)) == Pre(f)
        decreases |Pre(f)| - |visited|
      {
        ghost var later := Pre(cur) + Later(path);
        visited := visited + [menu.value];
        menu, cur, up, path := Step(menu.value, root, cur, up, path);
        assert later == later[..1] + (Pre(cur) + Later(path));
      }
    }

    /** However the menus are rearranged, the configuration is written in the order of the source text. */
    method FinalizeAndWalk(root: Id, ghost f: Forest) returns (visited: seq<Id>)
      requires f.Item? && f.id == root && f.rest.Nil? && At(Some(root), f, None)
      modifies this
      ensures [root] + visited == Pre(f)
    {
      ghost var f' := Finalize(root, f, None);
      NoDupItem(f');
      assert Pre(f.rest) == [] && f'.rest.Nil?;
      assert Holds(L(), Get(next, root), f'.rest, None);
      visited := Walk(root, f'.kids);
    }

    /** The entry after id. */
    method Step(id: Id, ghost root: Id, ghost cur: Forest, ghost up: Id, ghost path: Path)
        returns (menu: Option<Id>, ghost cur': Forest, ghost up': Id, ghost path': Path)
      requires Holds(L(), Some(id), cur, None) && Parents(L(), Some(up), cur) && Within(L(), root, up, path)
      ensures (Pre(cur) + Later(path))[..1] == [id]
      ensures Pre(cur') + Later(path') == (Pre(cur) + Later(path))[1..]
      ensures menu == First((Pre(cur) + Later(path))[1..])
      ensures menu.Some? ==>
        Holds(L(), menu, cur', None) && Parents(L(), Some(up'), cur') && Within(L(), root, up', path')
    {
      assert cur.Item?;
      assert Holds(L(), Get(list, id), cur.kids, None) && Holds(L(), Get(next, id), cur.rest, None);
      Remaining(cur, path);
      if id in list {
        menu, cur', up', path' := Some(list[id]), cur.kids, id, Below(id, cur.rest, path);
      } else if id in next {
        menu, cur', up', path' := Some(next[id]), cur.rest, up, path;
      } else {
        menu, cur', up', path' := Climb(id, root, up, path);
      }
    }

    /** From an entry without further siblings to the next one of the nearest ancestor that has one. */
    method Climb(id: Id, ghost root: Id, ghost up0: Id, ghost path0: Path)
        returns (menu: Option<Id>, ghost cur: Forest, ghost up: Id, ghost path: Path)
      requires Get(parent, id) == Some(up0) && Within(L(), root, up0, path0)
      ensures menu == First(Later(path0))
      ensures menu.None? ==> cur == Nil && Later(path) == []
      ensures menu.Some? ==> Holds(L(), menu, cur, None) && Parents(L(), Some(up), cur) && Within(L(), root, up, path)
      ensures menu.Some? ==> Pre(cur) + Later(path) == Later(path0)
    {
      menu := Get(parent, id);
      up, path, cur := up0, path0, Nil;
      while menu.Some?
        invariant menu.Some? ==> menu.value == up && Within(L(), root, up, path) && Later(path) == Later(path0)
        invariant menu.None? ==> Later(path0) == [] && Later(path) == []
        decreases if menu.Some? then 1 else 0, path
      {
        if menu.value in next {
          cur := path.rest;
          up, path := parent[menu.value], path.above;
          menu := Some(next[menu.value]);
          return;
        }
        if path.Below? {
          assert Holds(L(), None, path.rest, None);
          up, path := parent[menu.value], path.above;
        }
        menu := Get(parent, menu.value);
      }
    }
  }

  /** What is taken below m in the end, if done has been taken and cur is left. */
  ghost function TakenAfter(r: Rules, m: Id, done: Forest, cur: Forest): (Forest, Forest) {
    var (taken, left) := TakenBelow(r, m, cur);
    (Append(done, taken), left)
  }

  /** The way up from the current entries: each ancestor with its later siblings. */
  datatype Path = Root | Below(id: Id, rest: Forest, above: Path)

  ghost predicate Within(l: Links, root: Id, up: Id, path: Path)
    decreases path
  {
    match path
    case Root => up == root && root !in l.next && root !in l.parent
    case Below(id, rest, above) =>
      && up == id && Holds(l, Get(l.next, id), rest, None)
      && id in l.parent && Parents(l, Some(l.parent[id]), rest) && Within(l, root, l.parent[id], above)
  }

  function Later(path: Path): seq<Id> {
    match path
    case Root => []
    case Below(_, rest, above) => Pre(rest) + Later(above)
  }

  function First(s: seq<Id>): Option<Id> {
    if s == [] then None else Some(s[0])
  }

  /** What is left after the first entry. */
  lemma Remaining(cur: Forest, path: Path)
    requires cur.Item?
    ensures (Pre(cur) + Later(path))[..1] == [cur.id]
    ensures Pre(cur.kids) + Later(Below(cur.id, cur.rest, path)) == (Pre(cur) + Later(path))[1..]
    ensures cur.kids.Nil? ==> Pre(cur.rest) + Later(path) == (Pre(cur) + Later(path))[1..]
    ensures cur.kids.Nil? && cur.rest.Nil? ==> Later(path) == (Pre(cur) + Later(path))[1..]
  {
  }

  /** Only pointers of the given entries differ. */
  ghost predicate OnlyChanged(l: Links, l': Links, ids: seq<Id>) {
    forall x :: x !in ids ==> SameLinks(l, l', x)
  }

  lemma ChangedTwice(l0: Links, l1: Links, l2: Links, a: seq<Id>, b: seq<Id>, ids: seq<Id>)
    requires OnlyChanged(l0, l1, a) && OnlyChanged(l1, l2, b)
    requires (forall x :: x in a ==> x in ids) && forall x :: x in b ==> x in ids
    ensures OnlyChanged(l0, l2, ids)
  {
  }

  /** Entry c.id, whose siblings follow it in c, is done. */
  lemma Advance(l0: Links, l: Links, head: Option<Id>, done: Forest, c: Forest, p: Option<Id>) returns (done': Forest)
    requires c.Item? && Holds(l0, head, done, Some(c.id)) && Parents(l0, p, done)
    requires NoDup(Pre(done) + Pre(c)) && forall x :: x !in Pre(c) ==> SameLinks(l0, l, x)
    requires Holds(l, Some(c.id), c, None) && Parents(l, p, Item(c.id, c.kids, Nil))
    ensures done' == Append(done, Item(c.id, c.kids, Nil))
    ensures done'.Item? && LastId(done') == c.id && Pre(done') + Pre(c.rest) == Pre(done) + Pre(c)
    ensures Holds(l, head, done', Get(l.next, c.id)) && Parents(l, p, done')
    ensures forall prompt :: KidsPrompted(prompt, done) && Prompted(prompt, c.kids) ==> KidsPrompted(prompt, done')
  {
    NoDupParts(Pre(done), Pre(c));
    var one := Item(c.id, c.kids, Nil);
    done' := Append(done, one);
    HoldsFrame(l0, l, head, done, Some(c.id));
    ParentsFrame(l0, l, p, done);
    AppendHolds(l, head, done, Some(c.id), one, Get(l.next, c.id));
    AppendParents(l, p, done, one);
    AppendPre(done, one);
    AppendLast(done, c.id, c.kids);
    forall prompt | KidsPrompted(prompt, done) && Prompted(prompt, c.kids) ensures KidsPrompted(prompt, done') {
      AppendPrompted(prompt, done, one);
      assert KidsPrompted(prompt, one);
    }
  }

  lemma ReparentStep(l: Links, l': Links, done: Forest, cur: Forest, f: Forest, m: Id, p: Id) returns (done': Forest)
    requires cur.Item? && NoDup(Pre(f)) && Append(done, cur) == f
    requires Parents(l, Some(m), done) && Parents(l, Some(p), cur) && Holds(l, Some(cur.id), cur, None)
    requires l' == l.(parent := l.parent[cur.id := m])
    ensures Append(done', cur.rest) == f && Parents(l', Some(m), done') && Parents(l', Some(p), cur.rest)
    ensures Holds(l', Get(l'.next, cur.id), cur.rest, None) && done'.Item? && LastId(done') == cur.id
    ensures cur.id in Pre(f)
  {
    AppendPre(done, cur);
    NoDupParts(Pre(done), Pre(cur));
    NoDupItem(cur);
    ParentsFrame(l, l', Some(m), done);
    ParentsFrame(l, l', Some(cur.id), cur.kids);
    ParentsFrame(l, l', Some(p), cur.rest);
    HoldsFrame(l, l', Some(cur.id), cur, None);
    done' := Append(done, Item(cur.id, cur.kids, Nil));
    AppendParents(l', Some(m), done, Item(cur.id, cur.kids, Nil));
    AppendItem(done, cur.id, cur.kids, cur.rest);
    AppendLast(done, cur.id, cur.kids);
  }

  /** The parent link of an absorbed entry. */
  lemma Adopted(l: Links, l': Links, c: Forest, p: Option<Id>, m: Id)
    requires c.Item? && NoDup(Pre(c)) && Holds(l, Some(c.id), c, None) && Parents(l, p, c)
    requires l' == l.(parent := l.parent[c.id := m])
    ensures Holds(l', Some(c.id), c, None) && Parents(l', Some(m), Item(c.id, c.kids, Nil)) && Parents(l', p, c.rest)
  {
    NoDupItem(c);
    HoldsFrame(l, l', Some(c.id), c, None);
    ParentsFrame(l, l', Some(c.id), c.kids);
    ParentsFrame(l, l', p, c.rest);
  }

  lemma {:induction false} LastNext(l: Links, head: Option<Id>, f: Forest, tail: Option<Id>)
    requires f.Item? && Holds(l, head, f, tail)
    ensures Get(l.next, LastId(f)) == tail
    decreases f
  {
    if f.rest.Item? {
      LastNext(l, Get(l.next, f.id), f.rest, tail);
    }
  }

  /** The pointers that change when the entries below c.id move behind it. */
  ghost predicate MovedUp(l: Links, l': Links, c: Forest)
    requires c.Item? && c.kids.Item?
  {
    && l'.list == l.list - {c.id} && Get(l'.next, c.id) == Get(l.list, c.id)
    && Get(l'.next, LastId(c.kids)) == Get(l.next, c.id)
    && forall x {:trigger SameLists(l, l', x)} :: x != c.id && x != LastId(c.kids) ==> SameLists(l, l', x)
  }

  lemma MovedKids(l: Links, l': Links, c: Forest)
    requires c.Item? && c.kids.Item? && NoDup(Pre(c)) && Holds(l, Some(c.id), c, None) && MovedUp(l, l', c)
    ensures Holds(l', Get(l.list, c.id), c.kids, Get(l.next, c.id))
  {
    NoDupItem(c);
    LastIdIn(c.kids);
    forall x | x in Pre(c.kids) && x != LastId(c.kids) ensures SameLists(l, l', x) {
    }
    Retail(l, l', Get(l.list, c.id), c.kids, None, Get(l.next, c.id));
  }

  lemma MovedRest(l: Links, l': Links, c: Forest)
    requires c.Item? && c.kids.Item? && NoDup(Pre(c)) && Holds(l, Some(c.id), c, None) && MovedUp(l, l', c)
    ensures Holds(l', Get(l.next, c.id), c.rest, None)
  {
    NoDupItem(c);
    LastIdIn(c.kids);
    forall x | x in Pre(c.rest) ensures SameLists(l, l', x) {
    }
    HoldsFrame(l, l', Get(l.next, c.id), c.rest, None);
  }

  /** The lists after the entries below c.id have been moved behind it. */
  lemma HoistedLists(l: Links, l': Links, c: Forest)
    requires c.Item? && c.kids.Item? && NoDup(Pre(c)) && Holds(l, Some(c.id), c, None) && MovedUp(l, l', c)
    ensures Holds(l', Some(c.id), Item(c.id, Nil, Append(c.kids, c.rest)), None)
  {
    MovedKids(l, l', c);
    MovedRest(l, l', c);
    AppendHolds(l', Get(l.list, c.id), c.kids, Get(l.next, c.id), c.rest, None);
  }

  /** The parent links after the entries below c.id have become children of m. */
  lemma HoistedParents(l: Links, l1: Links, l': Links, c: Forest, m: Id)
    requires c.Item? && NoDup(Pre(c)) && Parents(l, Some(m), c) && Parents(l1, Some(m), c.kids)
    requires l'.parent == l1.parent
    requires forall x :: x !in Pre(c.kids) ==> Get(l1.parent, x) == Get(l.parent, x)
    ensures Parents(l', Some(m), Item(c.id, Nil, Append(c.kids, c.rest)))
  {
    NoDupItem(c);
    ParentsFrame(l1, l', Some(m), c.kids);
    ParentsFrame(l, l', Some(m), c.rest);
    AppendParents(l', Some(m), c.kids, c.rest);
  }

  /** The siblings that were absorbed become the entries below m. */
  lemma Relinked(l: Links, l': Links, m: Id, done: Forest, cur: Forest, menu: Option<Id>)
    requires done.Item? && Holds(l, Get(l.next, m), done, menu) && Holds(l, menu, cur, None)
    requires NoDup(Pre(done) + Pre(cur)) && m !in Pre(done) && m !in Pre(cur)
    requires forall x :: x != m && x != LastId(done) ==> SameLists(l, l', x)
    requires Get(l'.list, LastId(done)) == Get(l.list, LastId(done)) && Get(l'.next, LastId(done)) == None
    requires Get(l'.list, m) == Get(l.next, m) && Get(l'.next, m) == menu
    ensures Holds(l', Get(l'.list, m), done, None) && Holds(l', Get(l'.next, m), cur, None)
  {
    NoDupParts(Pre(done), Pre(cur));
    LastIdIn(done);
    Retail(l, l', Get(l.next, m), done, menu, None);
    HoldsFrame(l, l', menu, cur, None);
  }
}
