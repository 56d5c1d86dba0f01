/** The ordering of game listings: the comparator GetGames hands to
    sort.Slice, and a stable insertion sort that the listing is sorted with.
    Names compare case-insensitively character by character, file sizes and
    creation times numerically; "desc" reverses the comparison. */
module Ordering {
  import opened Wrappers
  import opened Models
  import opened Text

  /** strings.Compare(a, b) < 0: character-wise lexicographic order, a
      proper prefix first. */
  predicate LexLess(a: string, b: string)
    decreases |a|
  {
    if a == [] then b != []
    else if b == [] then false
    else if a[0] != b[0] then a[0] < b[0]
    else LexLess(a[1..], b[1..])
  }

  lemma {:induction false} LexIrreflexive(a: string)
    ensures !LexLess(a, a)
    decreases |a|
  {
    if a != [] {
      LexIrreflexive(a[1..]);
    }
  }

  lemma {:induction false} LexTransitive(a: string, b: string, c: string)
    requires LexLess(a, b) && LexLess(b, c)
    ensures LexLess(a, c)
    decreases |a|
  {
    if a != [] && a[0] == b[0] && b[0] == c[0] {
      LexTransitive(a[1..], b[1..], c[1..]);
    }
  }

  /** Distinct strings are ordered one way or the other. */
  lemma {:induction false} LexTotal(a: string, b: string)
    requires a != b
    ensures LexLess(a, b) || LexLess(b, a)
    decreases |a|
  {
    if a != [] && b != [] && a[0] == b[0] {
      assert a == [a[0]] + a[1..] && b == [b[0]] + b[1..];
      LexTotal(a[1..], b[1..]);
    }
  }

  lemma LexAsymmetric(a: string, b: string)
    requires LexLess(a, b)
    ensures !LexLess(b, a)
  {
    if LexLess(b, a) {
      LexTransitive(a, b, a);
      LexIrreflexive(a);
    }
  }

  /** The value a sort field compares: the lower-cased name, the file size
      or the creation time. Unknown fields, and "lastPlayed", sort by name. */
  datatype Key = StrKey(s: string) | IntKey(i: int)

  function KeyOf(field: string, g: GameWithInstance): (k: Key)
    ensures k.IntKey? <==> field == "fileSize" || field == "dateAdded"
  {
    if field == "fileSize" then IntKey(g.instance.fileSize)
    else if field == "dateAdded" then IntKey(g.instance.createdAt)
    else StrKey(Lower(g.game.name))
  }

  predicate KeyLess(a: Key, b: Key) {
    if a.StrKey? && b.StrKey? then LexLess(a.s, b.s)
    else if a.IntKey? && b.IntKey? then a.i < b.i
    else false
  }

  predicate SameKind(a: Key, b: Key) {
    a.StrKey? == b.StrKey?
  }

  lemma KeyAsymmetric(a: Key, b: Key)
    requires KeyLess(a, b)
    ensures !KeyLess(b, a)
  {
    if a.StrKey? {
      LexAsymmetric(a.s, b.s);
    }
  }

  /** "Not less" chains: b <= a and c <= b give c <= a. */
  lemma KeyNotLessTransitive(a: Key, b: Key, c: Key)
    requires SameKind(a, b) && SameKind(b, c)
    requires !KeyLess(b, a) && !KeyLess(c, b)
    ensures !KeyLess(c, a)
  {
    if a.StrKey? && KeyLess(c, a) {
      if a.s != b.s {
        LexTotal(a.s, b.s);
        LexTransitive(c.s, a.s, b.s);
      }
    }
  }

  /** The comparator: ascending unless the order is exactly "desc". */
  predicate Less(o: GameSort, x: GameWithInstance, y: GameWithInstance) {
    if o.order == "desc" then KeyLess(KeyOf(o.field, y), KeyOf(o.field, x))
    else KeyLess(KeyOf(o.field, x), KeyOf(o.field, y))
  }

  lemma LessAsymmetric(o: GameSort, x: GameWithInstance, y: GameWithInstance)
    requires Less(o, x, y)
    ensures !Less(o, y, x)
  {
    if o.order == "desc" {
      KeyAsymmetric(KeyOf(o.field, y), KeyOf(o.field, x));
    } else {
      KeyAsymmetric(KeyOf(o.field, x), KeyOf(o.field, y));
    }
  }

  lemma NotLessTransitive(o: GameSort, x: GameWithInstance, y: GameWithInstance, z: GameWithInstance)
    requires !Less(o, y, x) && !Less(o, z, y)
    ensures !Less(o, z, x)
  {
    var kx, ky, kz := KeyOf(o.field, x), KeyOf(o.field, y), KeyOf(o.field, z);
    if o.order == "desc" {
      KeyNotLessTransitive(kz, ky, kx);
    } else {
      KeyNotLessTransitive(kx, ky, kz);
    }
  }

  /** No element is less than one before it. */
  predicate Sorted(o: GameSort, xs: seq<GameWithInstance>) {
    forall i, j :: 0 <= i < j < |xs| ==> !Less(o, xs[j], xs[i])
  }

  /** x goes before the first element that is not less than it. */
  function Insert(o: GameSort, x: GameWithInstance, xs: seq<GameWithInstance>): (r: seq<GameWithInstance>)
    ensures multiset(r) == multiset(xs) + multiset{x}
  {
    if xs == [] then [x]
    else if Less(o, xs[0], x) then
      assert xs == [xs[0]] + xs[1..];
      [xs[0]] + Insert(o, x, xs[1..])
    else [x] + xs
  }

  /** A sorted sequence stays sorted under a head nothing in it is less than. */
  lemma SortedCons(o: GameSort, a: GameWithInstance, rest: seq<GameWithInstance>)
    requires Sorted(o, rest)
    requires forall j :: 0 <= j < |rest| ==> !Less(o, rest[j], a)
    ensures Sorted(o, [a] + rest)
  {
    var r := [a] + rest;
    forall i, j | 0 <= i < j < |r|
      ensures !Less(o, r[j], r[i])
    {
      assert r[j] == rest[j - 1];
      if i > 0 {
        assert r[i] == rest[i - 1];
      }
    }
  }

  /** Every element of a sequence is one of its multiset's members. */
  lemma InMultiset(xs: seq<GameWithInstance>, y: GameWithInstance)
    requires y in multiset(xs)
    ensures exists k :: 0 <= k < |xs| && xs[k] == y
  {
    assert y in xs;
  }

  lemma {:induction false} InsertSorted(o: GameSort, x: GameWithInstance, xs: seq<GameWithInstance>)
    requires Sorted(o, xs)
    ensures Sorted(o, Insert(o, x, xs))
  {
    if xs == [] {
    } else if Less(o, xs[0], x) {
      var tail := xs[1..];
      var rest := Insert(o, x, tail);
      InsertSorted(o, x, tail);
      forall j | 0 <= j < |rest|
        ensures !Less(o, rest[j], xs[0])
      {
        assert rest[j] in multiset(rest);
        if rest[j] == x {
          LessAsymmetric(o, xs[0], x);
        } else {
          InMultiset(tail, rest[j]);
        }
      }
      SortedCons(o, xs[0], rest);
    } else {
      forall j | 0 <= j < |xs|
        ensures !Less(o, xs[j], x)
      {
        if j > 0 {
          NotLessTransitive(o, x, xs[0], xs[j]);
        }
      }
      SortedCons(o, x, xs);
    }
  }

  /** Insertion sort: a sorted permutation of the input, keeping equal
      elements in their original order. */
  function SortBy(o: GameSort, xs: seq<GameWithInstance>): (r: seq<GameWithInstance>)
    ensures multiset(r) == multiset(xs)
    ensures Sorted(o, r)
  {
    if xs == [] then []
    else
      var rest := SortBy(o, xs[1..]);
      InsertSorted(o, xs[0], rest);
      assert xs == [xs[0]] + xs[1..];
      Insert(o, xs[0], rest)
  }

  /** sortGames: no options or an empty field leave the listing as it is;
      otherwise it is sorted by the field and order. */
  function SortGames(games: seq<GameWithInstance>, opts: Option<GameSort>): (r: seq<GameWithInstance>)
    ensures multiset(r) == multiset(games)
    ensures opts.None? || opts.value.field == "" ==> r == games
    ensures opts.Some? ==> opts.value.field == "" || Sorted(opts.value, r)
  {
    if opts.None? || opts.value.field == "" then games else SortBy(opts.value, games)
  }

  function Reverse<T>(xs: seq<T>): (r: seq<T>)
    ensures |r| == |xs|
    ensures forall k :: 0 <= k < |xs| ==> r[k] == xs[|xs| - 1 - k]
  {
    if xs == [] then [] else Reverse(xs[1..]) + [xs[0]]
  }

  /** Descending order is ascending order read backwards. */
  lemma DescIsReversedAsc(field: string, xs: seq<GameWithInstance>)
    ensures Sorted(GameSort(field, "desc"), xs) <==> Sorted(GameSort(field, "asc"), Reverse(xs))
  {
    var d, a := GameSort(field, "desc"), GameSort(field, "asc");
    var n := |xs|;
    var r := Reverse(xs);
    if Sorted(d, xs) {
      forall i, j | 0 <= i < j < n
        ensures !Less(a, r[j], r[i])
      {
        assert r[j] == xs[n - 1 - j] && r[i] == xs[n - 1 - i];
      }
    }
    if Sorted(a, r) {
      forall i, j | 0 <= i < j < n
        ensures !Less(d, xs[j], xs[i])
      {
        assert r[n - 1 - i] == xs[i] && r[n - 1 - j] == xs[j];
      }
    }
  }

  /** Go's int64 subtraction, wrapping modulo 2^64. */
  function Sub64(a: int, b: int): (r: int)
    ensures Int64Min <= r <= Int64Max
    ensures Int64Min <= a - b <= Int64Max ==> r == a - b
  {
    var m := (a - b - Int64Min) % 0x1_0000_0000_0000_0000;
    m + Int64Min
  }

  /** The file-size comparison as written, `int(a - b) < 0`, agrees with
      the exact comparison the model sorts by whenever both sizes are
      non-negative int64 values, which every file size is. */
  lemma FileSizeCompareExact(a: int, b: int)
    requires 0 <= a <= Int64Max && 0 <= b <= Int64Max
    ensures Sub64(a, b) < 0 <==> a < b
    ensures Sub64(a, b) > 0 <==> a > b
  {
  }

  /** Outside that range the subtraction wraps and the comparison is wrong:
      the most negative size compares as larger than 1. */
  lemma FileSizeCompareWraps()
    ensures Sub64(Int64Min, 1) > 0
  {
  }
}
