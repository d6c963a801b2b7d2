/**
  Menu entries in first-child, next-sibling form, and the pointers that hold
  them.
 */
module KconfigForest {
  import opened Options

  type Id = nat

  /** A list of siblings: an entry, what is below it, and its further siblings. */
  datatype Forest = Nil | Item(id: Id, kids: Forest, rest: Forest)

  /** The list, next and parent pointers of all entries; no entry in the map is NULL. */
  datatype Links = Links(list: map<Id, Id>, next: map<Id, Id>, parent: map<Id, Id>)

  function Get(m: map<Id, Id>, x: Id): Option<Id> {
    if x in m then Some(m[x]) else None
  }

  function Put(m: map<Id, Id>, x: Id, v: Option<Id>): map<Id, Id> {
    if v.Some? then m[x := v.value] else m - {x}
  }

  /** The entries in the order of the source text. */
  function Pre(f: Forest): seq<Id> {
    match f
    case Nil => []
    case Item(id, kids, rest) => [id] + Pre(kids) + Pre(rest)
  }

  predicate NoDup(s: seq<Id>) {
    forall i, j :: 0 <= i < j < |s| ==> s[i] != s[j]
  }

  /** The pointers from head on hold f, and the sibling list ends at tail. */
  predicate Holds(l: Links, head: Option<Id>, f: Forest, tail: Option<Id>)
    decreases f
  {
    match f
    case Nil => head == tail
    case Item(id, kids, rest) =>
      head == Some(id) && Holds(l, Get(l.list, id), kids, None) && Holds(l, Get(l.next, id), rest, tail)
  }

  /** Every parent link is right. */
  predicate Parents(l: Links, p: Option<Id>, f: Forest)
    decreases f
  {
    match f
    case Nil => true
    case Item(id, kids, rest) => Get(l.parent, id) == p && Parents(l, Some(id), kids) && Parents(l, p, rest)
  }

  function Append(a: Forest, b: Forest): Forest {
    match a
    case Nil => b
    case Item(id, kids, rest) => Item(id, kids, Append(rest, b))
  }

  function LastId(f: Forest): Id
    requires f.Item?
  {
    if f.rest.Nil? then f.id else LastId(f.rest)
  }

  lemma NoDupParts(a: seq<Id>, b: seq<Id>)
    requires NoDup(a + b)
    ensures NoDup(a) && NoDup(b) && forall x :: x in a ==> x !in b
  {
    var s := a + b;
    assert forall i :: 0 <= i < |a| ==> s[i] == a[i];
    assert forall i :: 0 <= i < |b| ==> s[|a| + i] == b[i];
  }

  lemma NoDupItem(f: Forest)
    requires f.Item? && NoDup(Pre(f))
    ensures NoDup(Pre(f.kids)) && NoDup(Pre(f.rest))
    ensures f.id !in Pre(f.kids) && f.id !in Pre(f.rest) && forall x :: x in Pre(f.kids) ==> x !in Pre(f.rest)
  {
    NoDupParts([f.id] + Pre(f.kids), Pre(f.rest));
    NoDupParts([f.id], Pre(f.kids));
    assert f.id in [f.id] + Pre(f.kids) && f.id in [f.id];
    assert forall x :: x in Pre(f.kids) ==> x in [f.id] + Pre(f.kids);
  }

  lemma {:induction false} AppendPre(a: Forest, b: Forest)
    ensures Pre(Append(a, b)) == Pre(a) + Pre(b)
  {
    if a.Item? {
      AppendPre(a.rest, b);
      assert [a.id] + Pre(a.kids) + (Pre(a.rest) + Pre(b)) == [a.id] + Pre(a.kids) + Pre(a.rest) + Pre(b);
    }
  }

  lemma {:induction false} AppendHolds(l: Links, head: Option<Id>, a: Forest, mid: Option<Id>, b: Forest,
                                       tail: Option<Id>)
    requires Holds(l, head, a, mid) && Holds(l, mid, b, tail)
    ensures Holds(l, head, Append(a, b), tail)
    decreases a
  {
    if a.Item? {
      AppendHolds(l, Get(l.next, a.id), a.rest, mid, b, tail);
    }
  }

  lemma {:induction false} AppendParents(l: Links, p: Option<Id>, a: Forest, b: Forest)
    requires Parents(l, p, a) && Parents(l, p, b)
    ensures Parents(l, p, Append(a, b))
  {
    if a.Item? {
      AppendParents(l, p, a.rest, b);
    }
  }

  lemma {:induction false} AppendItem(a: Forest, id: Id, kids: Forest, b: Forest)
    ensures Append(Append(a, Item(id, kids, Nil)), b) == Append(a, Item(id, kids, b))
  {
    if a.Item? {
      AppendItem(a.rest, id, kids, b);
    }
  }

  lemma {:induction false} AppendNil(a: Forest)
    ensures Append(a, Nil) == a
  {
    if a.Item? {
      AppendNil(a.rest);
    }
  }

  lemma {:induction false} AppendLast(a: Forest, id: Id, kids: Forest)
    ensures Append(a, Item(id, kids, Nil)).Item? && LastId(Append(a, Item(id, kids, Nil))) == id
  {
    if a.Item? {
      AppendLast(a.rest, id, kids);
    }
  }

  lemma {:induction false} LastIdIn(f: Forest)
    requires f.Item?
    ensures LastId(f) in Pre(f)
  {
    if f.rest.Item? {
      LastIdIn(f.rest);
    }
  }

  predicate SameLists(l: Links, l': Links, x: Id) {
    Get(l.list, x) == Get(l'.list, x) && Get(l.next, x) == Get(l'.next, x)
  }

  predicate SameLinks(l: Links, l': Links, x: Id) {
    SameLists(l, l', x) && Get(l.parent, x) == Get(l'.parent, x)
  }

  lemma {:induction false} HoldsFrame(l: Links, l': Links, head: Option<Id>, f: Forest, tail: Option<Id>)
    requires Holds(l, head, f, tail) && forall x :: x in Pre(f) ==> SameLists(l, l', x)
    ensures Holds(l', head, f, tail)
    decreases f
  {
    if f.Item? {
      assert forall x :: x in Pre(f.kids) || x in Pre(f.rest) || x == f.id ==> x in Pre(f);
      assert SameLists(l, l', f.id);
      HoldsFrame(l, l', Get(l.list, f.id), f.kids, None);
      HoldsFrame(l, l', Get(l.next, f.id), f.rest, tail);
    }
  }

  lemma {:induction false} ParentsFrame(l: Links, l': Links, p: Option<Id>, f: Forest)
    requires Parents(l, p, f) && forall x :: x in Pre(f) ==> Get(l.parent, x) == Get(l'.parent, x)
    ensures Parents(l', p, f)
    decreases f
  {
    if f.Item? {
      assert forall x :: x in Pre(f.kids) || x in Pre(f.rest) || x == f.id ==> x in Pre(f);
      ParentsFrame(l, l', Some(f.id), f.kids);
      ParentsFrame(l, l', p, f.rest);
    }
  }

  /** Changing the next pointer of the last sibling changes where the list ends. */
  lemma {:induction false} Retail(l: Links, l': Links, head: Option<Id>, f: Forest, tail: Option<Id>, tail': Option<Id>)
    requires f.Item? && Holds(l, head, f, tail) && NoDup(Pre(f))
    requires forall x :: x in Pre(f) && x != LastId(f) ==> SameLists(l, l', x)
    requires Get(l.list, LastId(f)) == Get(l'.list, LastId(f)) && Get(l'.next, LastId(f)) == tail'
    ensures Holds(l', head, f, tail')
    decreases f
  {
    NoDupItem(f);
    LastIdIn(f);
    assert forall x :: x in Pre(f.kids) || x in Pre(f.rest) || x == f.id ==> x in Pre(f);
    if f.rest.Nil? {
      HoldsFrame(l, l', Get(l.list, f.id), f.kids, None);
    } else {
      LastIdIn(f.rest);
      assert SameLists(l, l', f.id);
      HoldsFrame(l, l', Get(l.list, f.id), f.kids, None);
      Retail(l, l', Get(l.next, f.id), f.rest, tail, tail');
    }
  }

  // ---------------------------------------------------------------------
  // Entries without a prompt

  /** Every entry that has something below it has a prompt. */
  predicate Prompted(prompt: set<Id>, f: Forest) {
    f.Item? ==> (f.kids.Item? ==> f.id in prompt) && Prompted(prompt, f.kids) && Prompted(prompt, f.rest)
  }

  /** That holds below each of the siblings. */
  predicate KidsPrompted(prompt: set<Id>, f: Forest) {
    f.Item? ==> Prompted(prompt, f.kids) && KidsPrompted(prompt, f.rest)
  }

  /** What is below a sibling without a prompt is moved behind it. */
  function Hoist(prompt: set<Id>, f: Forest): Forest
    decreases |Pre(f)|
  {
    match f
    case Nil => Nil
    case Item(id, kids, rest) =>
      if kids.Item? && id !in prompt then
        AppendPre(kids, rest);
        Item(id, Nil, Hoist(prompt, Append(kids, rest)))
      else Item(id, kids, Hoist(prompt, rest))
  }

  lemma {:induction false} HoistPre(prompt: set<Id>, f: Forest)
    ensures Pre(Hoist(prompt, f)) == Pre(f)
    decreases |Pre(f)|
  {
    if f.Item? {
      if f.kids.Item? && f.id !in prompt {
        AppendPre(f.kids, f.rest);
        HoistPre(prompt, Append(f.kids, f.rest));
        assert [f.id] + [] + (Pre(f.kids) + Pre(f.rest)) == [f.id] + Pre(f.kids) + Pre(f.rest);
      } else {
        HoistPre(prompt, f.rest);
      }
    }
  }

  lemma {:induction false} AppendPrompted(prompt: set<Id>, a: Forest, b: Forest)
    ensures Prompted(prompt, a) && KidsPrompted(prompt, b) ==> KidsPrompted(prompt, Append(a, b))
    ensures KidsPrompted(prompt, a) && KidsPrompted(prompt, b) ==> KidsPrompted(prompt, Append(a, b))
  {
    if a.Item? {
      AppendPrompted(prompt, a.rest, b);
    }
  }

  lemma {:induction false} HoistPrompted(prompt: set<Id>, f: Forest)
    requires KidsPrompted(prompt, f)
    ensures Prompted(prompt, Hoist(prompt, f))
    decreases |Pre(f)|
  {
    if f.Item? {
      if f.kids.Item? && f.id !in prompt {
        AppendPre(f.kids, f.rest);
        AppendPrompted(prompt, f.kids, f.rest);
        HoistPrompted(prompt, Append(f.kids, f.rest));
      } else {
        HoistPrompted(prompt, f.rest);
      }
    }
  }

  /** Entry x is in f, with the given entries below it. */
  predicate HasBelow(f: Forest, x: Id, kids: Forest) {
    f.Item? && ((f.id == x && f.kids == kids) || HasBelow(f.kids, x, kids) || HasBelow(f.rest, x, kids))
  }

  lemma {:induction false} BelowAppend(a: Forest, b: Forest, x: Id, kids: Forest)
    ensures HasBelow(Append(a, b), x, kids) <==> HasBelow(a, x, kids) || HasBelow(b, x, kids)
  {
    if a.Item? {
      BelowAppend(a.rest, b, x, kids);
    }
  }

  /** An entry with a prompt keeps what is below it. */
  lemma {:induction false} HoistKeeps(prompt: set<Id>, f: Forest, x: Id, kids: Forest)
    requires x in prompt
    ensures HasBelow(Hoist(prompt, f), x, kids) <==> HasBelow(f, x, kids)
    decreases |Pre(f)|
  {
    if f.Item? {
      if f.kids.Item? && f.id !in prompt {
        AppendPre(f.kids, f.rest);
        BelowAppend(f.kids, f.rest, x, kids);
        HoistKeeps(prompt, Append(f.kids, f.rest), x, kids);
      } else {
        HoistKeeps(prompt, f.rest, x, kids);
      }
    }
  }

  // ---------------------------------------------------------------------
  // The arrangement that menu_finalize makes, on forests

  /** Entries with a prompt, entries with a symbol, and the siblings that the dependency tests put below an entry. */
  datatype Rules = Rules(prompt: set<Id>, syms: set<Id>, below: set<(Id, Id)>)

  /** The first entry of f arranged, with the siblings that are left to it. */
  function Arranged(r: Rules, f: Forest): (g: Forest)
    requires f.Item?
    ensures g.Item? && g.id == f.id && Pre(g) == Pre(f) && |Pre(g.rest)| <= |Pre(f.rest)|
    decreases |Pre(f)|, 1
  {
    if f.kids.Item? then
      HoistPre(r.prompt, EachArranged(r, f.kids));
      Item(f.id, Hoist(r.prompt, EachArranged(r, f.kids)), f.rest)
    else if f.id in r.syms then
      var (taken, left) := TakenBelow(r, f.id, f.rest);
      HoistPre(r.prompt, taken);
      assert Pre(f.kids) == [];
      Item(f.id, Hoist(r.prompt, taken), left)
    else f
  }

  /** All siblings, one after the other; an entry may take those after it. */
  function EachArranged(r: Rules, f: Forest): (g: Forest)
    ensures Pre(g) == Pre(f)
    decreases |Pre(f)|, 2
  {
    if f.Nil? then Nil else
    var g := Arranged(r, f);
    Item(g.id, g.kids, EachArranged(r, g.rest))
  }

  /** The siblings that go below m, arranged, and those that are left. */
  function TakenBelow(r: Rules, m: Id, f: Forest): (g: (Forest, Forest))
    ensures Pre(g.0) + Pre(g.1) == Pre(f)
    decreases |Pre(f)|, 2
  {
    if f.Nil? || (m, f.id) !in r.below then (Nil, f) else
    var g := Arranged(r, f);
    var (taken, left) := TakenBelow(r, m, g.rest);
    (Item(g.id, g.kids, taken), left)
  }

  /** The tests put all of these siblings below m. */
  predicate AllBelow(below: set<(Id, Id)>, m: Id, f: Forest) {
    f.Item? ==> (m, f.id) in below && AllBelow(below, m, f.rest)
  }

  /** An entry takes the longest run of siblings that the tests put below it. */
  lemma {:induction false} TakesLongestRun(r: Rules, m: Id, f: Forest)
    ensures var (taken, left) := TakenBelow(r, m, f);
      AllBelow(r.below, m, taken) && (left.Item? ==> (m, left.id) !in r.below)
    decreases |Pre(f)|
  {
    if f.Item? && (m, f.id) in r.below {
      TakesLongestRun(r, m, Arranged(r, f).rest);
    }
  }
}
