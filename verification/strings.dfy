/** Go's byte-wise string order, splitting at commas, and sort.Strings. */
module Strings {

  predicate Le(a: string, b: string) {
    a == "" || (b != "" && (a[0] < b[0] || (a[0] == b[0] && Le(a[1..], b[1..]))))
  }

  predicate Lt(a: string, b: string) { Le(a, b) && a != b }

  lemma {:induction false} LeReflexive(a: string)
    ensures Le(a, a)
  {
    if a != "" { LeReflexive(a[1..]); }
  }

  lemma {:induction false} LeTotal(a: string, b: string)
    ensures Le(a, b) || Le(b, a)
  {
    if a != "" && b != "" { LeTotal(a[1..], b[1..]); }
  }

  lemma {:induction false} LeAntisymmetric(a: string, b: string)
    requires Le(a, b) && Le(b, a)
    ensures a == b
  {
    if a != "" {
      LeAntisymmetric(a[1..], b[1..]);
      assert a == [a[0]] + a[1..] && b == [b[0]] + b[1..];
    }
  }

  lemma {:induction false} LeTransitive(a: string, b: string, c: string)
    requires Le(a, b) && Le(b, c)
    ensures Le(a, c)
  {
    if a != "" && a[0] == b[0] && b[0] == c[0] { LeTransitive(a[1..], b[1..], c[1..]); }
  }

  lemma LtTransitive(a: string, b: string, c: string)
    requires (Lt(a, b) && Le(b, c)) || (Le(a, b) && Lt(b, c))
    ensures Lt(a, c)
  {
    LeTransitive(a, b, c);
    if a == c { LeAntisymmetric(a, b); }
  }

  predicate Sorted(list: seq<string>) { forall i, j | 0 <= i < j < |list| :: Le(list[i], list[j]) }

  function Insert(x: string, list: seq<string>): (out: seq<string>)
    ensures multiset(out) == multiset{x} + multiset(list)
  {
    if list == [] then [x]
    else if Le(x, list[0]) then [x] + list
    else
      assert list == [list[0]] + list[1..];
      [list[0]] + Insert(x, list[1..])
  }

  /** sort.Strings; the result is the only sorted permutation of the list. */
  function Sort(list: seq<string>): (out: seq<string>)
    ensures multiset(out) == multiset(list)
  {
    if list == [] then []
    else
      assert list == [list[0]] + list[1..];
      Insert(list[0], Sort(list[1..]))
  }

  lemma {:induction false} InsertSorted(x: string, list: seq<string>)
    requires Sorted(list)
    ensures Sorted(Insert(x, list))
  {
    if list != [] {
      var out := Insert(x, list);
      if Le(x, list[0]) {
        forall i | 1 <= i < |out| ensures Le(x, out[i]) {
          assert out[i] == list[i - 1];
          if i > 1 { LeTransitive(x, list[0], list[i - 1]); }
        }
      } else {
        LeTotal(x, list[0]);
        InsertSorted(x, list[1..]);
        forall i | 1 <= i < |out| ensures Le(list[0], out[i]) {
          assert out[i] in multiset(Insert(x, list[1..]));
          assert out[i] == x || out[i] in list[1..];
          LeReflexive(list[0]);
        }
      }
    }
  }

  lemma {:induction false} SortSorted(list: seq<string>)
    ensures Sorted(Sort(list))
  {
    if list != [] {
      SortSorted(list[1..]);
      InsertSorted(list[0], Sort(list[1..]));
    }
  }

  /** strings.Split at commas: always at least one part. */
  function SplitCommas(s: string): (parts: seq<string>)
    ensures parts != []
  {
    if s == "" then [""]
    else
      var rest := SplitCommas(s[1..]);
      if s[0] == ',' then [""] + rest else [[s[0]] + rest[0]] + rest[1..]
  }

  /** The parts with commas between them. */
  function JoinCommas(parts: seq<string>): string {
    if parts == [] then "" else if |parts| == 1 then parts[0] else parts[0] + "," + JoinCommas(parts[1..])
  }

  /** Splitting takes the text apart at exactly its commas. */
  lemma {:induction false} SplitInverts(s: string)
    ensures SplitCommas(s) != [] && JoinCommas(SplitCommas(s)) == s
    ensures forall p | p in SplitCommas(s) :: ',' !in p
  {
    if s != "" {
      SplitInverts(s[1..]);
      assert s == [s[0]] + s[1..];
      var rest := SplitCommas(s[1..]);
      if s[0] == ',' {
        assert JoinCommas([""] + rest) == "" + "," + JoinCommas(rest);
      } else {
        var first := [s[0]] + rest[0];
        assert SplitCommas(s) == [first] + rest[1..];
        assert rest == [rest[0]] + rest[1..];
      }
    }
  }

  /** The order is Go's: a prefix comes first, and otherwise the first difference decides. */
  lemma {:induction false} LeIff(a: string, b: string)
    ensures Le(a, b) <==> a <= b || exists i :: 0 <= i < |a| && i < |b| && a[..i] == b[..i] && a[i] < b[i]
    decreases |a|
  {
    if a != "" && b != "" {
      if a[0] == b[0] {
        LeIff(a[1..], b[1..]);
        if i :| 0 <= i < |a| - 1 && i < |b| - 1 && a[1..][..i] == b[1..][..i] && a[1..][i] < b[1..][i] {
          assert a[..i + 1] == [a[0]] + a[1..][..i] && b[..i + 1] == [b[0]] + b[1..][..i];
          assert a[i + 1] < b[i + 1];
        }
        if i :| 0 <= i < |a| && i < |b| && a[..i] == b[..i] && a[i] < b[i] {
          assert i > 0;
          assert a[1..][..i - 1] == a[..i][1..] && b[1..][..i - 1] == b[..i][1..];
          assert a[1..][i - 1] < b[1..][i - 1];
        }
        assert a <= b <==> a[1..] <= b[1..];
      } else if a[0] < b[0] {
        assert a[..0] == b[..0];
      } else {
        forall i | 0 < i < |a| && i < |b|
          ensures a[..i] != b[..i]
        {
          assert a[..i][0] == a[0] && b[..i][0] == b[0];
        }
      }
    }
  }
}
