/** The label rule of `addresses_to_string` (src/main.rs:18-29): the
    addresses of one input or output become a single string. */
module Canonical {
  import opened Strings

  /** `Address::to_string` is taken as the identity: an address is its
      string form. */
  type Address = string

  /** Rust's `Ord` for `String`: byte-wise lexicographic order on the UTF-8
      encoding, which coincides with lexicographic order on code points. */
  predicate LexLe(a: string, b: string)
  {
    |a| == 0 || (|b| > 0 && (a[0] < b[0] || (a[0] == b[0] && LexLe(a[1..], b[1..]))))
  }

  /** `a` is a prefix of `b`. */
  predicate PrefixOf(a: string, b: string)
  {
    |a| <= |b| && a == b[..|a|]
  }

  /** `a` is a suffix of `b`. */
  predicate SuffixOf(a: string, b: string)
  {
    |a| <= |b| && a == b[|b| - |a|..]
  }

  /** At the first position where `a` and `b` differ, `a` has the smaller
      char. */
  predicate SmallerAtFirstDifference(a: string, b: string)
  {
    exists k :: 0 <= k < |a| && k < |b| && a[..k] == b[..k] && a[k] < b[k]
  }

  /** With equal first chars, `a` is a prefix of `b` exactly when its tail
      is a prefix of the tail of `b`. */
  lemma SameHeadPrefix(a: string, b: string)
    requires |a| > 0 && |b| > 0 && a[0] == b[0]
    ensures PrefixOf(a, b) <==> PrefixOf(a[1..], b[1..])
  {
    if PrefixOf(a, b) {
      assert a[1..] == b[1..][..|a| - 1];
    }
    if PrefixOf(a[1..], b[1..]) {
      assert a == [a[0]] + a[1..];
    }
  }

  /** With equal first chars, a first difference of the tails is one of
      the whole strings, one position later. */
  lemma SameHeadSmallerFromTails(a: string, b: string)
    requires |a| > 0 && |b| > 0 && a[0] == b[0]
    requires SmallerAtFirstDifference(a[1..], b[1..])
    ensures SmallerAtFirstDifference(a, b)
  {
    var k :| 0 <= k < |a| - 1 && k < |b| - 1 && a[1..][..k] == b[1..][..k] && a[1..][k] < b[1..][k];
    assert a[..k + 1] == [a[0]] + a[1..][..k];
    assert b[..k + 1] == [b[0]] + b[1..][..k];
  }

  /** With equal first chars, a first difference of the whole strings is
      one of the tails, one position earlier. */
  lemma SameHeadSmallerToTails(a: string, b: string)
    requires |a| > 0 && |b| > 0 && a[0] == b[0]
    requires SmallerAtFirstDifference(a, b)
    ensures SmallerAtFirstDifference(a[1..], b[1..])
  {
    var k :| 0 <= k < |a| && k < |b| && a[..k] == b[..k] && a[k] < b[k];
    assert k > 0;
    assert a[1..][..k - 1] == a[..k][1..];
    assert b[1..][..k - 1] == b[..k][1..];
  }

  /** With different first chars, the first chars decide. */
  lemma DifferentHead(a: string, b: string)
    requires |a| > 0 && |b| > 0 && a[0] != b[0]
    ensures !PrefixOf(a, b)
    ensures SmallerAtFirstDifference(a, b) <==> a[0] < b[0]
  {
    forall k | 0 < k <= |a| && k <= |b|
      ensures a[..k] != b[..k]
    {
      assert a[..k][0] == a[0] && b[..k][0] == b[0];
    }
    if |a| <= |b| {
      assert b[..|a|][0] == b[0];
    }
    if a[0] < b[0] {
      assert a[..0] == b[..0];
    }
  }

  /** LexLe agrees with the textbook definition: `a` is a prefix of `b`, or
      at the first position where they differ `a` has the smaller char. */
  lemma {:induction false} LexLeFirstDifference(a: string, b: string)
    ensures LexLe(a, b) <==> PrefixOf(a, b) || SmallerAtFirstDifference(a, b)
  {
    if |a| > 0 && |b| > 0 {
      if a[0] == b[0] {
        LexLeFirstDifference(a[1..], b[1..]);
        SameHeadPrefix(a, b);
        if SmallerAtFirstDifference(a[1..], b[1..]) {
          SameHeadSmallerFromTails(a, b);
        }
        if SmallerAtFirstDifference(a, b) {
          SameHeadSmallerToTails(a, b);
        }
      } else {
        DifferentHead(a, b);
      }
    }
  }

  lemma {:induction false} LexLeReflexive(a: string)
    ensures LexLe(a, a)
  {
    if |a| > 0 {
      LexLeReflexive(a[1..]);
    }
  }

  lemma {:induction false} LexLeTotal(a: string, b: string)
    ensures LexLe(a, b) || LexLe(b, a)
  {
    if |a| > 0 && |b| > 0 && a[0] == b[0] {
      LexLeTotal(a[1..], b[1..]);
    }
  }

  lemma {:induction false} LexLeAntisymmetric(a: string, b: string)
    requires LexLe(a, b) && LexLe(b, a)
    ensures a == b
  {
    if |a| > 0 && |b| > 0 {
      LexLeAntisymmetric(a[1..], b[1..]);
      assert a == [a[0]] + a[1..] && b == [b[0]] + b[1..];
    }
  }

  lemma {:induction false} LexLeTransitive(a: string, b: string, c: string)
    requires LexLe(a, b) && LexLe(b, c)
    ensures LexLe(a, c)
  {
    if |a| > 0 && |b| > 0 && |c| > 0 && a[0] == b[0] == c[0] {
      LexLeTransitive(a[1..], b[1..], c[1..]);
    }
  }

  /** Ascending order, as `Vec::sort` leaves it. */
  predicate Sorted(xs: seq<string>)
  {
    forall i, j :: 0 <= i < j < |xs| ==> LexLe(xs[i], xs[j])
  }

  /** Insert `x` before the first element it does not exceed. */
  function Insert(x: string, xs: seq<string>): (r: seq<string>)
    ensures |r| == |xs| + 1
    ensures multiset(r) == multiset(xs) + multiset{x}
  {
    if |xs| == 0 then [x]
    else if LexLe(x, xs[0]) then [x] + xs
    else
      assert xs == [xs[0]] + xs[1..];
      [xs[0]] + Insert(x, xs[1..])
  }

  /** Insertion sort; it stands for the `addresses.sort()` call. */
  function Sort(xs: seq<string>): (r: seq<string>)
    ensures |r| == |xs|
    ensures multiset(r) == multiset(xs)
  {
    if |xs| == 0 then []
    else
      assert xs == [xs[0]] + xs[1..];
      Insert(xs[0], Sort(xs[1..]))
  }

  /** Every element of `xs` is at least `lo`. */
  predicate AllAtLeast(lo: string, xs: seq<string>)
  {
    forall j :: 0 <= j < |xs| ==> LexLe(lo, xs[j])
  }

  lemma {:induction false} InsertKeepsLowerBound(lo: string, x: string, xs: seq<string>)
    requires LexLe(lo, x) && AllAtLeast(lo, xs)
    ensures AllAtLeast(lo, Insert(x, xs))
  {
    if |xs| == 0 {
      AllAtLeastCons(lo, x, []);
      assert [x] + [] == [x];
    } else if LexLe(x, xs[0]) {
      AllAtLeastCons(lo, x, xs);
    } else {
      assert AllAtLeast(lo, xs[1..]);
      InsertKeepsLowerBound(lo, x, xs[1..]);
      AllAtLeastCons(lo, xs[0], Insert(x, xs[1..]));
    }
  }

  lemma AllAtLeastCons(lo: string, y: string, ys: seq<string>)
    requires LexLe(lo, y) && AllAtLeast(lo, ys)
    ensures AllAtLeast(lo, [y] + ys)
  {
    var r := [y] + ys;
    forall j | 0 <= j < |r|
      ensures LexLe(lo, r[j])
    {
      if j > 0 {
        assert r[j] == ys[j - 1];
      }
    }
  }

  /** A sequence is sorted when its head is a lower bound of its sorted tail. */
  lemma SortedCons(y: string, ys: seq<string>)
    requires AllAtLeast(y, ys) && Sorted(ys)
    ensures Sorted([y] + ys)
  {
    var r := [y] + ys;
    forall i, j | 0 <= i < j < |r|
      ensures LexLe(r[i], r[j])
    {
      assert r[j] == ys[j - 1];
      if i > 0 {
        assert r[i] == ys[i - 1];
      }
    }
  }

  lemma {:induction false} InsertSorted(x: string, xs: seq<string>)
    requires Sorted(xs)
    ensures Sorted(Insert(x, xs))
  {
    if |xs| == 0 {
    } else if LexLe(x, xs[0]) {
      forall j | 0 <= j < |xs|
        ensures LexLe(x, xs[j])
      {
        if j > 0 {
          LexLeTransitive(x, xs[0], xs[j]);
        }
      }
      SortedCons(x, xs);
    } else {
      LexLeTotal(x, xs[0]);
      assert Sorted(xs[1..]);
      InsertSorted(x, xs[1..]);
      assert AllAtLeast(xs[0], xs[1..]);
      InsertKeepsLowerBound(xs[0], x, xs[1..]);
      SortedCons(xs[0], Insert(x, xs[1..]));
    }
  }

  /** The sort leaves its result in ascending order. */
  lemma {:induction false} SortSorted(xs: seq<string>)
    ensures Sorted(Sort(xs))
  {
    if |xs| > 0 {
      SortSorted(xs[1..]);
      InsertSorted(xs[0], Sort(xs[1..]));
    }
  }

  /** Two ascending sequences with the same elements are equal, so the
      sorted form of a collection does not depend on the sorting method,
      nor on whether the sort is stable. */
  lemma {:induction false} SortedUnique(a: seq<string>, b: seq<string>)
    requires Sorted(a) && Sorted(b)
    requires multiset(a) == multiset(b)
    ensures a == b
  {
    assert |a| == |multiset(a)| == |multiset(b)| == |b|;
    if |a| > 0 {
      SortedSameHead(a, b);
      SortedTail(a);
      SortedTail(b);
      SortedUnique(a[1..], b[1..]);
    }
  }

  /** A non-empty sorted sequence is its head followed by a sorted tail
      holding the other elements. */
  lemma SortedTail(a: seq<string>)
    requires Sorted(a) && |a| > 0
    ensures a == [a[0]] + a[1..]
    ensures Sorted(a[1..])
    ensures multiset(a[1..]) == multiset(a) - multiset{a[0]}
  {
    assert a == [a[0]] + a[1..];
  }

  /** Two non-empty ascending sequences with the same elements start with
      the same (least) element. */
  lemma SortedSameHead(a: seq<string>, b: seq<string>)
    requires Sorted(a) && Sorted(b)
    requires |a| > 0 && |b| > 0
    requires multiset(a) == multiset(b)
    ensures a[0] == b[0]
  {
    assert a[0] in multiset(b) && b[0] in multiset(a);
    var k :| 0 <= k < |b| && b[k] == a[0];
    var m :| 0 <= m < |a| && a[m] == b[0];
    LexLeReflexive(a[0]);
    LexLeReflexive(b[0]);
    assert LexLe(a[0], a[m]);
    assert LexLe(b[0], b[k]);
    LexLeAntisymmetric(a[0], b[0]);
  }

  /** Sorting forgets the enumeration order. */
  lemma SortPermutationInvariant(xs: seq<string>, ys: seq<string>)
    requires multiset(xs) == multiset(ys)
    ensures Sort(xs) == Sort(ys)
  {
    SortSorted(xs);
    SortSorted(ys);
    SortedUnique(Sort(xs), Sort(ys));
  }

  /** `addresses_to_string`: no address gives the empty string, one address
      gives its string unchanged, more are sorted and joined with `-`. */
  function AddressesToString(addresses: seq<Address>): string
  {
    match |addresses|
    case 0 => ""
    case 1 => addresses[0]
    case _ => Join(Sort(addresses), "-")
  }

  /** The three cases are one rule: join the sorted addresses with `-`. */
  lemma LabelIsSortedJoin(addresses: seq<Address>)
    ensures AddressesToString(addresses) == Join(Sort(addresses), "-")
    ensures |addresses| == 0 ==> AddressesToString(addresses) == ""
    ensures |addresses| == 1 ==> AddressesToString(addresses) == addresses[0]
  {
  }

  /** `joined` is the `-` join of `sorted`, an ascending arrangement of two
      or more `addresses`; it begins with the first and ends with the last
      of them, with no separator before or after. */
  predicate JoinsAscending(joined: string, sorted: seq<Address>, addresses: seq<Address>)
  {
    && Sorted(sorted)
    && multiset(sorted) == multiset(addresses)
    && joined == Join(sorted, "-")
    && |sorted| >= 2
    && PrefixOf(sorted[0], joined)
    && SuffixOf(sorted[|sorted| - 1], joined)
  }

  /** The label of two or more addresses lists them all in ascending order,
      separated by `-`, and begins and ends with an address. */
  lemma LabelOfSeveral(addresses: seq<Address>)
    requires |addresses| >= 2
    ensures exists sorted :: JoinsAscending(AddressesToString(addresses), sorted, addresses)
  {
    var sorted := Sort(addresses);
    SortSorted(addresses);
    SortedLabelEnds(addresses);
    assert JoinsAscending(AddressesToString(addresses), sorted, addresses);
  }

  /** The label of two or more addresses begins with the smallest and ends
      with the largest of them. */
  lemma SortedLabelEnds(addresses: seq<Address>)
    requires |addresses| >= 2
    ensures var joined, sorted := AddressesToString(addresses), Sort(addresses);
      && joined == Join(sorted, "-")
      && PrefixOf(sorted[0], joined)
      && SuffixOf(sorted[|sorted| - 1], joined)
  {
    LabelIsSortedJoin(addresses);
    JoinEnds(Sort(addresses), "-");
  }

  /** The label depends only on which addresses there are, not on the order
      in which the store enumerated them. */
  lemma LabelPermutationInvariant(xs: seq<Address>, ys: seq<Address>)
    requires multiset(xs) == multiset(ys)
    ensures AddressesToString(xs) == AddressesToString(ys)
  {
    LabelIsSortedJoin(xs);
    LabelIsSortedJoin(ys);
    SortPermutationInvariant(xs, ys);
  }

  /** When no address contains `-`, splitting the label at `-` recovers the
      addresses (in ascending order), so the label determines the set. */
  lemma LabelSplits(addresses: seq<Address>)
    requires |addresses| >= 1
    requires forall i, k :: 0 <= i < |addresses| && 0 <= k < |addresses[i]| ==> addresses[i][k] != '-'
    ensures Split(AddressesToString(addresses), '-') == Sort(addresses)
    ensures multiset(Split(AddressesToString(addresses), '-')) == multiset(addresses)
  {
    var sorted := Sort(addresses);
    forall i, k | 0 <= i < |sorted| && 0 <= k < |sorted[i]|
      ensures sorted[i][k] != '-'
    {
      assert sorted[i] in multiset(addresses);
    }
    LabelIsSortedJoin(addresses);
    SplitJoin(sorted, '-');
  }

  /** No escaping is done: an address containing `-` labels the same as the
      addresses on either side of it. */
  lemma LabelIsAmbiguous()
    ensures AddressesToString(["a-b"]) == AddressesToString(["b", "a"])
  {
    LabelIsSortedJoin(["b", "a"]);
    assert !LexLe("b", "a");
    SortOfTwo("b", "a");
    JoinOfTwo("a", "b", "-");
  }

  /** No address and a single empty address both give the empty label, so
      `LabelSplits` cannot drop its bound of one or more addresses. */
  lemma EmptyLabelIsAmbiguous()
    ensures AddressesToString([]) == AddressesToString([""]) == ""
    ensures multiset([""]) != multiset{}
  {
    assert "" in multiset([""]);
  }

  /** Worked examples of the rule: no address, one address, two addresses. */
  lemma LabelExamples()
    ensures AddressesToString([]) == ""
    ensures AddressesToString(["a"]) == "a"
    ensures AddressesToString(["b", "a"]) == "a-b"
  {
    LabelIsSortedJoin(["b", "a"]);
    assert !LexLe("b", "a");
    SortOfTwo("b", "a");
    JoinOfTwo("a", "b", "-");
  }

  /** Two addresses out of order are swapped. */
  lemma SortOfTwo(x: Address, y: Address)
    requires !LexLe(x, y)
    ensures Sort([x, y]) == [y, x]
  {
    var xs := [x, y];
    assert xs[1..] == [y] && [y][1..] == [];
    assert Sort([y]) == Insert(y, Sort([])) == [y];
    assert Insert(x, [y]) == [y] + Insert(x, []) == [y, x];
  }

  lemma JoinOfTwo(x: string, y: string, sep: string)
    ensures Join([x, y], sep) == x + sep + y
  {
    assert [x, y][1..] == [y];
  }

  lemma JoinOfThree(x: string, y: string, z: string, sep: string)
    ensures Join([x, y, z], sep) == x + sep + y + sep + z
  {
    assert [x, y, z][1..] == [y, z];
    JoinOfTwo(y, z, sep);
  }

  /** Worked example of the rule: three addresses. */
  lemma LabelOfThree()
    ensures AddressesToString(["z", "a", "m"]) == "a" + "-" + "m" + "-" + "z"
  {
    LabelIsSortedJoin(["z", "a", "m"]);
    SortOfThree();
    JoinOfThree("a", "m", "z", "-");
  }

  lemma SortOfThree()
    ensures Sort(["z", "a", "m"]) == ["a", "m", "z"]
  {
    var xs := ["z", "a", "m"];
    assert xs[1..] == ["a", "m"];
    assert ["a", "m"][1..] == ["m"];
    assert LexLe("a", "m");
    assert Sort(["m"]) == ["m"];
    assert Sort(["a", "m"]) == ["a", "m"];
    assert !LexLe("z", "a");
    assert !LexLe("z", "m");
    assert Insert("z", ["m"]) == ["m", "z"];
    assert Insert("z", ["a", "m"]) == ["a", "m", "z"];
  }
}
