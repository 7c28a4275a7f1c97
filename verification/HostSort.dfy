/** The order in which `collect_hostlist_1` sorts its entries: Python's order on tuples of strings
    and numbers, with None before everything. */
module HostSort {
  import opened Wrappers
  import opened HostText
  import opened TextOrder

  /** One entry of `sortlist`; a host without a number has suffix None, number and width -1. */
  datatype Item = Item(prefix: string, suffix: Option<string>, num: int, width: int, host: string)

  predicate SameGroup(a: Item, b: Item) {
    a.prefix == b.prefix && a.suffix == b.suffix
  }

  predicate OptLeq(a: Option<string>, b: Option<string>) {
    a.None? || (b.Some? && StrLeq(a.value, b.value))
  }

  predicate ItemLeq(a: Item, b: Item) {
    if a.prefix != b.prefix then StrLeq(a.prefix, b.prefix)
    else if a.suffix != b.suffix then OptLeq(a.suffix, b.suffix)
    else if a.num != b.num then a.num < b.num
    else if a.width != b.width then a.width < b.width
    else StrLeq(a.host, b.host)
  }

  lemma ItemTotal(a: Item, b: Item)
    ensures ItemLeq(a, b) || ItemLeq(b, a)
    ensures ItemLeq(a, b) && ItemLeq(b, a) ==> a == b
  {
    StrTotal(a.prefix, b.prefix);
    if a.suffix.Some? && b.suffix.Some? {
      StrTotal(a.suffix.value, b.suffix.value);
    }
    StrTotal(a.host, b.host);
  }

  lemma OptTransitive(a: Option<string>, b: Option<string>, c: Option<string>)
    requires OptLeq(a, b) && OptLeq(b, c)
    ensures OptLeq(a, c)
    ensures a == c ==> a == b
  {
    if a.Some? {
      StrTransitive(a.value, b.value, c.value);
      StrTotal(a.value, b.value);
    }
  }

  lemma ItemTransitive(a: Item, b: Item, c: Item)
    requires ItemLeq(a, b) && ItemLeq(b, c)
    ensures ItemLeq(a, c)
    ensures SameGroup(a, c) ==> SameGroup(a, b)
  {
    StrTotal(a.prefix, a.prefix);
    StrTotal(b.prefix, b.prefix);
    StrTransitive(a.prefix, b.prefix, c.prefix);
    StrTotal(a.prefix, b.prefix);
    StrTotal(b.prefix, c.prefix);
    if a.prefix == b.prefix == c.prefix {
      if a.suffix.Some? { StrTotal(a.suffix.value, a.suffix.value); }
      if b.suffix.Some? { StrTotal(b.suffix.value, b.suffix.value); }
      OptTransitive(a.suffix, b.suffix, c.suffix);
      if a.suffix == b.suffix == c.suffix && a.num == b.num == c.num && a.width == b.width == c.width {
        StrTransitive(a.host, b.host, c.host);
      }
    }
  }

  function Insert(x: Item, l: seq<Item>): seq<Item>
    decreases |l|
  {
    if l == [] || ItemLeq(x, l[0]) then [x] + l else [l[0]] + Insert(x, l[1..])
  }

  /** `sortlist.sort()`. */
  function Sort(l: seq<Item>): seq<Item>
    decreases |l|
  {
    if l == [] then [] else Insert(l[0], Sort(l[1..]))
  }

  ghost predicate Sorted(l: seq<Item>) {
    forall i, j :: 0 <= i < j < |l| ==> ItemLeq(l[i], l[j])
  }

  lemma {:induction false} InsertSorted(x: Item, l: seq<Item>)
    requires Sorted(l)
    ensures Sorted(Insert(x, l)) && multiset(Insert(x, l)) == multiset(l) + multiset{x}
    decreases |l|
  {
    if l != [] {
      assert l == [l[0]] + l[1..];
      if ItemLeq(x, l[0]) {
        forall j | 0 <= j < |l|
          ensures ItemLeq(x, l[j])
        {
          if j > 0 {
            ItemTransitive(x, l[0], l[j]);
          }
        }
      } else {
        ItemTotal(x, l[0]);
        InsertSorted(x, l[1..]);
        var m := Insert(x, l[1..]);
        forall j | 0 <= j < |m|
          ensures ItemLeq(l[0], m[j])
        {
          assert m[j] in multiset(m);
          assert m[j] == x || m[j] in l[1..];
        }
      }
    }
  }

  lemma {:induction false} SortIs(l: seq<Item>)
    ensures Sorted(Sort(l)) && multiset(Sort(l)) == multiset(l)
    decreases |l|
  {
    if l != [] {
      assert l == [l[0]] + l[1..];
      SortIs(l[1..]);
      InsertSorted(l[0], Sort(l[1..]));
    }
  }

  /** In a sorted list the entries of a group stand together. */
  lemma GroupsTogether(l: seq<Item>, i: nat, j: nat, k: nat)
    requires Sorted(l) && i <= j <= k < |l| && SameGroup(l[i], l[k])
    ensures SameGroup(l[i], l[j])
  {
    if i < j < k {
      ItemTransitive(l[i], l[j], l[k]);
    }
  }
}
