/** The counting helpers of the console entry point: a frequency table of
    integers and the selection of containers by arrival transport type. */
module Stats {
  import opened Terminal

  /** How often v occurs in s. */
  function Count(s: seq<int>, v: int): nat
  {
    if |s| == 0 then 0
    else Count(s[..|s| - 1], v) + (if s[|s| - 1] == v then 1 else 0)
  }

  /** The distinct values of s in order of first appearance. */
  function Distinct(s: seq<int>): seq<int>
  {
    if |s| == 0 then []
    else if s[|s| - 1] in s[..|s| - 1] then Distinct(s[..|s| - 1])
    else Distinct(s[..|s| - 1]) + [s[|s| - 1]]
  }

  /** The sum of the counts in s of the values listed in ks. */
  function Total(s: seq<int>, ks: seq<int>): nat
  {
    if |ks| == 0 then 0 else Total(s, ks[..|ks| - 1]) + Count(s, ks[|ks| - 1])
  }

  predicate NoDuplicates(ks: seq<int>) {
    forall i, j :: 0 <= i < j < |ks| ==> ks[i] != ks[j]
  }

  /** makeOccurrencesDict: one key per distinct value, mapped to the number
      of times that value occurs. */
  method MakeOccurrencesDict(values: seq<int>) returns (dict: map<int, nat>)
    ensures dict.Keys == set v | v in values
    ensures forall k :: k in dict ==> dict[k] == Count(values, k) && dict[k] > 0
    ensures TableSum(dict, Distinct(values)) == |values|
  {
    dict := map[];
    for i := 0 to |values|
      invariant dict.Keys == set v | v in values[..i]
      invariant forall k :: k in dict ==> dict[k] == Count(values[..i], k) && dict[k] > 0
    {
      var v := values[i];
      assert values[..i + 1][..i] == values[..i];
      ghost var prev := dict;
      if v !in dict {
        dict := dict[v := 1];
      } else {
        dict := dict[v := dict[v] + 1];
      }
      forall k | k in dict ensures dict[k] == Count(values[..i + 1], k) {
        assert Count(values[..i + 1], k) == Count(values[..i], k) + (if v == k then 1 else 0);
        if k != v {
          assert k in prev;
        } else if v !in prev {
          CountAbsent(values[..i], v);
        }
      }
    }
    assert values[..|values|] == values;
    DistinctContents(values);
    TableSumIsTotal(dict, values, Distinct(values));
    CountsSumToLength(values);
  }

  /** The sum of the table entries of the keys listed in ks. */
  function TableSum(dict: map<int, nat>, ks: seq<int>): nat
  {
    if |ks| == 0 then 0
    else TableSum(dict, ks[..|ks| - 1]) + (if ks[|ks| - 1] in dict then dict[ks[|ks| - 1]] else 0)
  }

  /** A table holding the counts of values sums, over any keys, to their
      total count. */
  lemma {:induction false} TableSumIsTotal(dict: map<int, nat>, values: seq<int>, ks: seq<int>)
    requires forall k :: k in ks ==> k in dict && dict[k] == Count(values, k)
    ensures TableSum(dict, ks) == Total(values, ks)
  {
    if |ks| > 0 {
      TableSumIsTotal(dict, values, ks[..|ks| - 1]);
      assert ks[|ks| - 1] in ks;
    }
  }

  lemma {:induction false} CountAbsent(s: seq<int>, v: int)
    ensures Count(s, v) == 0 <==> v !in s
  {
    if |s| > 0 {
      CountAbsent(s[..|s| - 1], v);
      assert s == s[..|s| - 1] + [s[|s| - 1]];
    }
  }

  lemma {:induction false} DistinctContents(s: seq<int>)
    ensures NoDuplicates(Distinct(s))
    ensures forall v :: v in Distinct(s) <==> v in s
  {
    if |s| > 0 {
      DistinctContents(s[..|s| - 1]);
      assert s == s[..|s| - 1] + [s[|s| - 1]];
    }
  }

  lemma {:induction false} TotalAppend(s: seq<int>, v: int, ks: seq<int>)
    requires NoDuplicates(ks)
    ensures Total(s + [v], ks) == Total(s, ks) + (if v in ks then 1 else 0)
  {
    if |ks| > 0 {
      var init := ks[..|ks| - 1];
      TotalAppend(s, v, init);
      assert (s + [v])[..|s|] == s;
      assert ks == init + [ks[|ks| - 1]];
    }
  }

  /** The counts of the distinct values add up to the length of the input. */
  lemma {:induction false} CountsSumToLength(s: seq<int>)
    ensures Total(s, Distinct(s)) == |s|
  {
    if |s| > 0 {
      var init, v := s[..|s| - 1], s[|s| - 1];
      assert s == init + [v];
      CountsSumToLength(init);
      DistinctContents(init);
      var d := Distinct(init);
      TotalAppend(init, v, d);
      if v !in init {
        CountAbsent(init, v);
        assert Distinct(s) == d + [v];
        assert (d + [v])[..|d|] == d;
      }
    }
  }

  /** listContainerType: the containers of the requested arrival type, in
      input order; the input is a value and is left as it was. */
  method ListContainerType(containers: seq<Container>, name: string) returns (result: seq<Container>)
    ensures result == OfType(containers, name)
    ensures |result| <= |containers|
    ensures forall c :: c in result <==> c in containers && c.arrivalType == name
  {
    result := [];
    for i := 0 to |containers|
      invariant result == OfType(containers[..i], name)
    {
      assert containers[..i + 1][..i] == containers[..i];
      if containers[i].arrivalType == name {
        result := result + [containers[i]];
      }
    }
    assert containers[..|containers|] == containers;
    OfTypeContents(containers, name);
  }
}
