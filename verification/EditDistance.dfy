/**
 Models levenshteinDistance and closestAllowedRule of src/tools/commands/command_tools.ts.

 The reference definition of the distance is the length of a shortest chain of single
 insertions, deletions and substitutions (`IsEditChain`). `Lev` is the recurrence the matrix
 is filled by; `EditDistanceIsMinimal` ties the two together, and the metric laws follow
 from concatenating and reversing chains.
 */
module EditDistance {
  import opened Options

  function Min(x: nat, y: nat): nat {
    if x < y then x else y
  }

  function Cost(c: char, d: char): nat {
    if c == d then 0 else 1
  }

  // ---------- The reference definition ----------

  /** The strings that one insertion, deletion or substitution at `pre|post` relates. */
  ghost predicate EditAt(s: string, t: string, pre: string, x: string, y: string, post: string) {
    s == pre + x + post && t == pre + y + post && |x| <= 1 && |y| <= 1
  }

  /** t is s after at most one insertion, deletion or substitution. */
  ghost predicate OneEdit(s: string, t: string) {
    exists pre, x, y, post :: EditAt(s, t, pre, x, y, post)
  }

  /** A chain of strings from a to b, each one edit away from the previous one. */
  ghost predicate IsEditChain(chain: seq<string>, a: string, b: string) {
    && |chain| > 0
    && chain[0] == a
    && chain[|chain| - 1] == b
    && forall i | 0 <= i < |chain| - 1 :: OneEdit(chain[i], chain[i + 1])
  }

  /** n is the length of a shortest edit chain from a to b. */
  ghost predicate IsEditDistance(n: nat, a: string, b: string) {
    && (exists chain :: IsEditChain(chain, a, b) && |chain| == n + 1)
    && (forall chain :: IsEditChain(chain, a, b) ==> n + 1 <= |chain|)
  }

  // ---------- The recurrence ----------

  /** The distance between the first i characters of a and the first j characters of b. */
  function PrefixDistance(a: string, b: string, i: nat, j: nat): nat
    requires i <= |a| && j <= |b|
  {
    if i == 0 then j
    else if j == 0 then i
    else Min(PrefixDistance(a, b, i - 1, j) + 1,
             Min(PrefixDistance(a, b, i, j - 1) + 1, PrefixDistance(a, b, i - 1, j - 1) + Cost(a[i - 1], b[j - 1])))
  }

  function Lev(a: string, b: string): nat {
    PrefixDistance(a, b, |a|, |b|)
  }

  lemma {:induction false} PrefixDistanceIsLocal(a: string, b: string, c: string, d: string, i: nat, j: nat)
    requires i <= |a| && j <= |b|
    ensures PrefixDistance(a + c, b + d, i, j) == PrefixDistance(a, b, i, j)
  {
    if i > 0 && j > 0 {
      PrefixDistanceIsLocal(a, b, c, d, i - 1, j);
      PrefixDistanceIsLocal(a, b, c, d, i, j - 1);
      PrefixDistanceIsLocal(a, b, c, d, i - 1, j - 1);
      OneCell(a + c, b + d, i, j);
      OneCell(a, b, i, j);
      hide PrefixDistance;
    }
  }

  /** The recurrence of the matrix. */
  lemma OneCell(a: string, b: string, i: nat, j: nat)
    requires 0 < i <= |a| && 0 < j <= |b|
    ensures PrefixDistance(a, b, i, j) ==
            Min(PrefixDistance(a, b, i - 1, j) + 1,
                Min(PrefixDistance(a, b, i, j - 1) + 1, PrefixDistance(a, b, i - 1, j - 1) + Cost(a[i - 1], b[j - 1])))
  {
  }

  lemma LevUnfolded(s: string, c: char, b: string, d: char)
    ensures Lev(s + [c], b + [d]) == Min(Lev(s, b + [d]) + 1, Min(Lev(s + [c], b) + 1, Lev(s, b) + Cost(c, d)))
  {
    assert s + [c] + [] == s + [c] && b + [d] + [] == b + [d];
    PrefixDistanceIsLocal(s, b + [d], [c], [], |s|, |b| + 1);
    PrefixDistanceIsLocal(s + [c], b, [], [d], |s| + 1, |b|);
    PrefixDistanceIsLocal(s, b, [c], [d], |s|, |b|);
  }

  lemma {:induction false} LevGrowsByOne(p: string, c: char, b: string)
    ensures Lev(p + [c], b) <= Lev(p, b) + 1
    ensures Lev(p, b) <= Lev(p + [c], b) + 1
    decreases |p| + |b|
  {
    if |b| > 0 {
      var b', d := b[..|b| - 1], b[|b| - 1];
      assert b == b' + [d];
      LevUnfolded(p, c, b', d);
      LevGrowsByOne(p, c, b');
      if |p| > 0 {
        assert p == p[..|p| - 1] + [p[|p| - 1]];
        LevUnfolded(p[..|p| - 1], p[|p| - 1], b', d);
      }
    }
  }

  lemma {:induction false} LevSubstitution(p: string, c: char, e: char, b: string)
    ensures Lev(p + [c], b) <= Lev(p + [e], b) + 1
    decreases |b|
  {
    if |b| > 0 {
      var b', d := b[..|b| - 1], b[|b| - 1];
      assert b == b' + [d];
      LevUnfolded(p, c, b', d);
      LevUnfolded(p, e, b', d);
      LevGrowsByOne(p, c, b);
      LevSubstitution(p, c, e, b');
    }
  }

  lemma LevLastEdit(p: string, x: string, y: string, b: string)
    requires |x| <= 1 && |y| <= 1
    ensures Lev(p + x, b) <= Lev(p + y, b) + 1
  {
    assert p + [] == p;
    assert |x| == 1 ==> x == [x[0]];
    assert |y| == 1 ==> y == [y[0]];
    if |x| == 1 && |y| == 1 {
      LevSubstitution(p, x[0], y[0], b);
    } else if |x| == 1 {
      LevGrowsByOne(p, x[0], b);
    } else if |y| == 1 {
      LevGrowsByOne(p, y[0], b);
    }
  }

  /** One edit anywhere changes the recurrence's value by at most one. */
  lemma {:induction false} LevOneEdit(p: string, x: string, y: string, q: string, b: string)
    requires |x| <= 1 && |y| <= 1
    ensures Lev(p + x + q, b) <= Lev(p + y + q, b) + 1
    decreases |q| + |b|
  {
    var s, t := p + x + q, p + y + q;
    if |q| == 0 {
      assert s == p + x && t == p + y;
      LevLastEdit(p, x, y, b);
    } else if |b| > 0 {
      var q', c, b', d := q[..|q| - 1], q[|q| - 1], b[..|b| - 1], b[|b| - 1];
      var s', t' := p + x + q', p + y + q';
      assert s == s' + [c] && t == t' + [c] && b == b' + [d];
      LevUnfolded(s', c, b', d);
      LevUnfolded(t', c, b', d);
      LevOneEdit(p, x, y, q', b);
      LevOneEdit(p, x, y, q', b');
      LevOneEdit(p, x, y, q, b');
    }
  }

  /** No edit chain is shorter than the recurrence's value. */
  lemma {:induction false} NoShorterChain(chain: seq<string>, a: string, b: string)
    requires IsEditChain(chain, a, b)
    ensures Lev(a, b) + 1 <= |chain|
    decreases |chain|
  {
    if |chain| == 1 {
      LevSelf(a);
    } else {
      assert OneEdit(chain[0], chain[1]);
      var pre, x, y, post :| EditAt(chain[0], chain[1], pre, x, y, post);
      LevOneEdit(pre, x, y, post, b);
      NoShorterChain(chain[1..], chain[1], b);
    }
  }

  lemma {:induction false} LevSelf(a: string)
    ensures Lev(a, a) == 0
  {
    if |a| > 0 {
      var a', c := a[..|a| - 1], a[|a| - 1];
      assert a == a' + [c];
      LevSelf(a');
      LevUnfolded(a', c, a', c);
    }
  }

  lemma AppendLink(chain: seq<string>, a: string, m: string, b: string)
    requires IsEditChain(chain, a, m) && OneEdit(m, b)
    ensures IsEditChain(chain + [b], a, b)
  {
  }

  lemma PrependLink(chain: seq<string>, a: string, m: string, b: string)
    requires OneEdit(a, m) && IsEditChain(chain, m, b)
    ensures IsEditChain([a] + chain, a, b)
  {
    var c := [a] + chain;
    forall i | 0 <= i < |c| - 1
      ensures OneEdit(c[i], c[i + 1])
    {
      if i > 0 {
        assert c[i] == chain[i - 1] && c[i + 1] == chain[i];
      }
    }
  }

  lemma DropLastIsOneEdit(s: string)
    requires |s| > 0
    ensures OneEdit(s, s[..|s| - 1]) && OneEdit(s[..|s| - 1], s)
  {
    var p, last := s[..|s| - 1], [s[|s| - 1]];
    assert s == p + last;
    assert EditAt(s, p, p, last, [], []);
    assert EditAt(p, s, p, [], last, []);
  }

  /** Appending one character to every string of a chain gives a chain. */
  lemma SuffixedChain(chain: seq<string>, a: string, b: string, c: char) returns (longer: seq<string>)
    requires IsEditChain(chain, a, b)
    ensures IsEditChain(longer, a + [c], b + [c]) && |longer| == |chain|
  {
    longer := seq(|chain|, i requires 0 <= i < |chain| => chain[i] + [c]);
    forall i | 0 <= i < |longer| - 1
      ensures OneEdit(longer[i], longer[i + 1])
    {
      assert OneEdit(chain[i], chain[i + 1]);
      var pre, x, y, post :| EditAt(chain[i], chain[i + 1], pre, x, y, post);
      assert EditAt(longer[i], longer[i + 1], pre, x, y, post + [c]);
    }
  }

  /** A chain whose length is the recurrence's value. */
  lemma {:induction false} ShortestChain(a: string, b: string) returns (chain: seq<string>)
    ensures IsEditChain(chain, a, b) && |chain| == Lev(a, b) + 1
    decreases |a| + |b|
  {
    if |a| > 0 && |b| > 0 {
      assert a == a[..|a| - 1] + [a[|a| - 1]] && b == b[..|b| - 1] + [b[|b| - 1]];
      LevUnfolded(a[..|a| - 1], a[|a| - 1], b[..|b| - 1], b[|b| - 1]);
    }
    if |a| == 0 && |b| == 0 {
      chain := [a];
    } else if |b| == 0 || (|a| > 0 && Lev(a, b) == Lev(a[..|a| - 1], b) + 1) {
      var a' := a[..|a| - 1];
      chain := ShortestChain(a', b);
      DropLastIsOneEdit(a);
      PrependLink(chain, a, a', b);
      chain := [a] + chain;
    } else if |a| == 0 || Lev(a, b) == Lev(a, b[..|b| - 1]) + 1 {
      var b' := b[..|b| - 1];
      chain := ShortestChain(a, b');
      DropLastIsOneEdit(b);
      AppendLink(chain, a, b', b);
      chain := chain + [b];
    } else {
      var a', b', c, d := a[..|a| - 1], b[..|b| - 1], a[|a| - 1], b[|b| - 1];
      chain := ShortestChain(a', b');
      chain := SuffixedChain(chain, a', b', c);
      assert a == a' + [c] && b == b' + [d];
      if c != d {
        assert EditAt(b' + [c], b, b', [c], [d], []);
        AppendLink(chain, a, b' + [c], b);
        chain := chain + [b];
      }
    }
  }

  lemma EditDistanceIsMinimal(a: string, b: string)
    ensures IsEditDistance(Lev(a, b), a, b)
  {
    var chain := ShortestChain(a, b);
    forall other | IsEditChain(other, a, b)
      ensures Lev(a, b) + 1 <= |other|
    {
      NoShorterChain(other, a, b);
    }
  }

  // ---------- The metric laws ----------

  lemma OneEditReversed(s: string, t: string)
    requires OneEdit(s, t)
    ensures OneEdit(t, s)
  {
    var pre, x, y, post :| EditAt(s, t, pre, x, y, post);
    assert EditAt(t, s, pre, y, x, post);
  }

  lemma ReversedChain(chain: seq<string>, a: string, b: string) returns (back: seq<string>)
    requires IsEditChain(chain, a, b)
    ensures IsEditChain(back, b, a) && |back| == |chain|
  {
    var n := |chain|;
    back := seq(n, i requires 0 <= i < n => chain[n - 1 - i]);
    forall i | 0 <= i < n - 1
      ensures OneEdit(back[i], back[i + 1])
    {
      assert OneEdit(chain[n - 2 - i], chain[n - 2 - i + 1]);
      OneEditReversed(chain[n - 2 - i], chain[n - 1 - i]);
    }
  }

  lemma JoinedChain(left: seq<string>, right: seq<string>, a: string, m: string, b: string)
    requires IsEditChain(left, a, m) && IsEditChain(right, m, b)
    ensures IsEditChain(left + right[1..], a, b)
  {
    var c := left + right[1..];
    forall i | 0 <= i < |c| - 1
      ensures OneEdit(c[i], c[i + 1])
    {
      if i >= |left| - 1 {
        var j := i - (|left| - 1);
        assert c[i] == right[j] && c[i + 1] == right[j + 1];
      }
    }
  }

  lemma SymmetricLe(a: string, b: string)
    ensures Lev(b, a) <= Lev(a, b)
  {
    var chain := ShortestChain(a, b);
    var back := ReversedChain(chain, a, b);
    NoShorterChain(back, b, a);
  }

  /** The edit distance is a metric on strings. */
  lemma LevIsMetric(a: string, b: string, c: string)
    ensures Lev(a, b) == 0 <==> a == b
    ensures Lev(a, b) == Lev(b, a)
    ensures Lev(a, c) <= Lev(a, b) + Lev(b, c)
  {
    LevSelf(a);
    var ab := ShortestChain(a, b);
    var bc := ShortestChain(b, c);
    SymmetricLe(a, b);
    SymmetricLe(b, a);
    JoinedChain(ab, bc, a, b, c);
    NoShorterChain(ab + bc[1..], a, c);
  }

  // ---------- The matrix ----------

  /** The borders and the cells before (row, col) in row order hold the distances of the prefixes. */
  ghost predicate FilledTo(matrix: array2<nat>, a: string, b: string, row: nat, col: nat)
    reads matrix
  {
    && matrix.Length0 == |a| + 1
    && matrix.Length1 == |b| + 1
    && (forall r, c | 0 <= r <= |a| && 0 <= c <= |b| && (r == 0 || c == 0 || r < row || (r == row && c < col)) ::
          matrix[r, c] == PrefixDistance(a, b, r, c))
  }

  /** The distance computed by filling an (|a|+1) x (|b|+1) matrix row by row. */
  method LevenshteinDistance(a: string, b: string) returns (distance: nat)
    ensures distance == Lev(a, b)
    ensures IsEditDistance(distance, a, b)
  {
    hide IsEditDistance;
    EditDistanceIsMinimal(a, b);
    if a == b {
      LevSelf(a);
      return 0;
    }
    if |a| == 0 {
      return |b|;
    }
    if |b| == 0 {
      return |a|;
    }
    var matrix := new nat[|a| + 1, |b| + 1]((row, col) => if row == 0 then col else if col == 0 then row else 0);
    for row := 1 to |a| + 1
      invariant FilledTo(matrix, a, b, row, 0)
    {
      for col := 1 to |b| + 1
        invariant FilledTo(matrix, a, b, row, col)
      {
        var cost := if a[row - 1] == b[col - 1] then 0 else 1;
        matrix[row, col] := Min(matrix[row - 1, col] + 1,
            Min(matrix[row, col - 1] + 1, matrix[row - 1, col - 1] + cost));
      }
    }
    distance := matrix[|a|, |b|];
  }

  // ---------- The closest allowed rule ----------

  datatype Rule<D> = Rule(domain: D, example: string)

  /** Rule i is allowed and is the earliest one at minimum distance from the command. */
  ghost predicate IsClosestAllowed<D>(
    rules: seq<Rule<D>>, allowed: set<D>, command: string, lower: string -> string, i: nat)
  {
    && i < |rules|
    && rules[i].domain in allowed
    && (forall j | 0 <= j < |rules| && rules[j].domain in allowed ::
          && Lev(lower(command), lower(rules[i].example)) <= Lev(lower(command), lower(rules[j].example))
          && (j < i ==> Lev(lower(command), lower(rules[i].example)) < Lev(lower(command), lower(rules[j].example))))
  }

  /** Filters the compiled rules by domain and reduces the candidates to the closest one. */
  method ClosestAllowedRule<D(==)>(rules: seq<Rule<D>>, allowed: set<D>, command: string, lower: string -> string)
    returns (best: Option<Rule<D>>)
    ensures best.None? <==> forall rule | rule in rules :: rule.domain !in allowed
    ensures best.Some? ==>
            exists i: nat :: IsClosestAllowed(rules, allowed, command, lower, i) && rules[i] == best.value
  {
    var normalized := lower(command);
    best := None;
    ghost var at := 0;
    for k := 0 to |rules|
      invariant best.None? ==> forall j | 0 <= j < k :: rules[j].domain !in allowed
      invariant best.Some? ==> at < k && rules[at] == best.value
                               && IsClosestAllowed(rules[..k], allowed, command, lower, at)
    {
      var current := rules[k];
      if current.domain in allowed {
        if best.None? {
          best, at := Some(current), k;
        } else {
          var bestDistance := LevenshteinDistance(normalized, lower(best.value.example));
          var currentDistance := LevenshteinDistance(normalized, lower(current.example));
          if currentDistance < bestDistance {
            best, at := Some(current), k;
          }
        }
      }
    }
    assert rules[..|rules|] == rules;
    if best.Some? {
      assert rules[at] in rules;
    }
  }
}
