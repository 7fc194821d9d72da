/**
 * Levenshtein edit distance, as computed by `min_edit_distance` in HW9/hw9.py.
 *
 * `Distance` is the recurrence the table tabulates, written as a recursive
 * function on the last letters of both words. Edit scripts (`Edit`, `Apply`,
 * `ScriptCost`) give the meaning of "minimum number of operations"
 * independently of that recurrence, and `DistanceIsCheapestScript` proves that
 * the recurrence is exactly the cheapest script. `MinEditDistance` fills the
 * (m+1) x (n+1) table in place and returns its bottom-right cell.
 */
module EditDistance {
  import opened Wrappers

  /** The smallest of three numbers, as Python's `min(x, y, z)`. */
  function Min3(x: int, y: int, z: int): (r: int)
    ensures r <= x && r <= y && r <= z
    ensures r == x || r == y || r == z
  {
    if x <= y && x <= z then x else if y <= z then y else z
  }

  /**
   * The distance between a and b by the table's recurrence: an empty word is
   * as far from the other as that one is long; equal last letters cost
   * nothing; otherwise one operation (delete, insert or replace) on the last
   * letter plus the cheapest rest.
   */
  function Distance(a: string, b: string): nat
    decreases |a| + |b|
  {
    if |a| == 0 then |b|
    else if |b| == 0 then |a|
    else if a[|a| - 1] == b[|b| - 1] then Distance(a[..|a| - 1], b[..|b| - 1])
    else 1 + Min3(Distance(a[..|a| - 1], b), Distance(a, b[..|b| - 1]), Distance(a[..|a| - 1], b[..|b| - 1]))
  }

  /** One step of an edit script: each of Keep, Delete and Replace consumes one
      letter of the source word, Insert consumes none. */
  datatype Edit = Keep | Delete | Insert(c: char) | Replace(c: char)

  function Cost(e: Edit): nat
  {
    if e.Keep? then 0 else 1
  }

  /** The number of operations of a script (every step but Keep is one). */
  function ScriptCost(es: seq<Edit>): nat
  {
    if es == [] then 0 else ScriptCost(es[..|es| - 1]) + Cost(es[|es| - 1])
  }

  /**
   * The word the script es makes of a, reading both from left to right, or
   * None when the script does not fit a (it consumes more or fewer letters
   * than a has). The last step acts on the last letter.
   */
  function Apply(es: seq<Edit>, a: string): Option<string>
    decreases |es|
  {
    if es == [] then
      if a == [] then Some([]) else None
    else
      var rest, e := es[..|es| - 1], es[|es| - 1];
      if e.Insert? then
        match Apply(rest, a)
        case None => None
        case Some(b) => Some(b + [e.c])
      else if a == [] then None
      else
        match Apply(rest, a[..|a| - 1])
        case None => None
        case Some(b) =>
          if e.Keep? then Some(b + [a[|a| - 1]])
          else if e.Delete? then Some(b)
          else Some(b + [e.c])
  }

  /** A script that turns a into b with exactly Distance(a, b) operations,
      following the choice the recurrence makes. */
  function Script(a: string, b: string): (es: seq<Edit>)
    ensures Apply(es, a) == Some(b)
    ensures ScriptCost(es) == Distance(a, b)
    decreases |a| + |b|
  {
    if |a| == 0 && |b| == 0 then []
    else if |a| == 0 then
      var s := Script(a, b[..|b| - 1]) + [Insert(b[|b| - 1])];
      assert s[..|s| - 1] == Script(a, b[..|b| - 1]);
      assert b[..|b| - 1] + [b[|b| - 1]] == b;
      s
    else if |b| == 0 then
      var s := Script(a[..|a| - 1], b) + [Delete];
      assert s[..|s| - 1] == Script(a[..|a| - 1], b);
      s
    else
      var a', b', x, y := a[..|a| - 1], b[..|b| - 1], a[|a| - 1], b[|b| - 1];
      assert b' + [y] == b;
      if x == y then
        var s := Script(a', b') + [Keep];
        assert s[..|s| - 1] == Script(a', b');
        s
      else if Distance(a', b) <= Distance(a, b') && Distance(a', b) <= Distance(a', b') then
        var s := Script(a', b) + [Delete];
        assert s[..|s| - 1] == Script(a', b);
        s
      else if Distance(a, b') <= Distance(a', b') then
        var s := Script(a, b') + [Insert(y)];
        assert s[..|s| - 1] == Script(a, b');
        s
      else
        var s := Script(a', b') + [Replace(y)];
        assert s[..|s| - 1] == Script(a', b');
        s
  }

  /** Levenshtein distance does not depend on the direction of the edit. */
  lemma {:induction false} DistanceSymmetric(a: string, b: string)
    ensures Distance(a, b) == Distance(b, a)
    decreases |a| + |b|
  {
    if |a| != 0 && |b| != 0 {
      var a', b' := a[..|a| - 1], b[..|b| - 1];
      DistanceSymmetric(a', b');
      DistanceSymmetric(a', b);
      DistanceSymmetric(a, b');
    }
  }

  /** One more letter at the end of the source word changes the distance by
      at most one, in either direction. */
  lemma {:induction false} AppendToSource(a: string, b: string, x: char)
    ensures Distance(a + [x], b) <= Distance(a, b) + 1
    ensures Distance(a, b) <= Distance(a + [x], b) + 1
    decreases |a| + |b|
  {
    var ax := a + [x];
    assert ax[..|ax| - 1] == a;
    if |b| != 0 {
      var b', y := b[..|b| - 1], b[|b| - 1];
      assert b' + [y] == b;
      // Distance(a, b) and Distance(a, b') differ by at most one.
      AppendToSource(b', a, y);
      DistanceSymmetric(a, b');
      DistanceSymmetric(a, b);
      if x != y {
        AppendToSource(a, b', x);
      }
    }
  }

  /** One more letter at the end of the target word changes the distance by
      at most one, in either direction. */
  lemma AppendToTarget(a: string, b: string, y: char)
    ensures Distance(a, b + [y]) <= Distance(a, b) + 1
    ensures Distance(a, b) <= Distance(a, b + [y]) + 1
  {
    AppendToSource(b, a, y);
    DistanceSymmetric(a, b);
    DistanceSymmetric(a, b + [y]);
  }

  /** No script that turns a into b is cheaper than Distance(a, b). */
  lemma {:induction false} ScriptCostAtLeastDistance(es: seq<Edit>, a: string, b: string)
    requires Apply(es, a) == Some(b)
    ensures Distance(a, b) <= ScriptCost(es)
    decreases |es|
  {
    if es != [] {
      var rest, e := es[..|es| - 1], es[|es| - 1];
      if e.Insert? {
        var b' := Apply(rest, a).value;
        ScriptCostAtLeastDistance(rest, a, b');
        AppendToTarget(a, b', e.c);
      } else {
        var a', x := a[..|a| - 1], a[|a| - 1];
        assert a' + [x] == a;
        var b' := Apply(rest, a').value;
        ScriptCostAtLeastDistance(rest, a', b');
        if e.Delete? {
          AppendToSource(a', b, x);
        } else {
          var y := if e.Keep? then x else e.c;
          assert b == b' + [y];
          assert b[..|b| - 1] == b';
        }
      }
    }
  }

  /**
   * The recurrence is exactly the minimum number of operations: some script
   * turning a into b uses Distance(a, b) operations, and none uses fewer.
   */
  lemma DistanceIsCheapestScript(a: string, b: string)
    ensures exists es :: Apply(es, a) == Some(b) && ScriptCost(es) == Distance(a, b)
    ensures forall es :: Apply(es, a) == Some(b) ==> Distance(a, b) <= ScriptCost(es)
  {
    var s := Script(a, b);
    assert Apply(s, a) == Some(b) && ScriptCost(s) == Distance(a, b);
    forall es | Apply(es, a) == Some(b)
      ensures Distance(a, b) <= ScriptCost(es)
    {
      ScriptCostAtLeastDistance(es, a, b);
    }
  }

  /** The distance is at least the difference of the lengths and at most the
      longer length. */
  lemma {:induction false} DistanceBounds(a: string, b: string)
    ensures Distance(a, b) <= if |a| <= |b| then |b| else |a|
    ensures Distance(a, b) >= if |a| <= |b| then |b| - |a| else |a| - |b|
    decreases |a| + |b|
  {
    if |a| != 0 && |b| != 0 {
      var a', b' := a[..|a| - 1], b[..|b| - 1];
      DistanceBounds(a', b');
      DistanceBounds(a', b);
      DistanceBounds(a, b');
    }
  }

  /** Every word is at distance zero from itself. */
  lemma {:induction false} DistanceToSelf(a: string)
    ensures Distance(a, a) == 0
    decreases |a|
  {
    if |a| != 0 {
      DistanceToSelf(a[..|a| - 1]);
    }
  }

  /** The distance between the first i letters of a and the first j letters of b. */
  function PrefixDistance(a: string, b: string, i: nat, j: nat): nat
    requires i <= |a| && j <= |b|
  {
    Distance(a[..i], b[..j])
  }

  /** The table's recurrence on prefixes: cell (i, j) copies the diagonal when
      the letters agree and is one plus the least of its three neighbours otherwise. */
  lemma DistanceStep(a: string, b: string, i: nat, j: nat)
    requires 0 < i <= |a| && 0 < j <= |b|
    ensures PrefixDistance(a, b, i, j) ==
      if a[i - 1] == b[j - 1] then PrefixDistance(a, b, i - 1, j - 1)
      else 1 + Min3(PrefixDistance(a, b, i - 1, j), PrefixDistance(a, b, i, j - 1), PrefixDistance(a, b, i - 1, j - 1))
  {
    assert a[..i][..i - 1] == a[..i - 1];
    assert b[..j][..j - 1] == b[..j - 1];
  }

  /**
   * `min_edit_distance`: builds the (m+1) x (n+1) table, sets the first
   * column to i and the first row to j, fills the rest row by row, and
   * returns the bottom-right cell. Cell (i, j) holds the distance between the
   * first i letters of word1 and the first j letters of word2.
   */
  method MinEditDistance(word1: string, word2: string) returns (d: nat)
    ensures d == Distance(word1, word2)
  {
    var m, n := |word1|, |word2|;
    var dp := new int[m + 1, n + 1];
    for i := 0 to m + 1
      invariant forall i' :: 0 <= i' < i ==> dp[i', 0] == i'
    {
      dp[i, 0] := i;
    }
    for j := 0 to n + 1
      invariant forall i' :: 0 <= i' <= m ==> dp[i', 0] == i'
      invariant forall j' :: 0 <= j' < j ==> dp[0, j'] == j'
    {
      dp[0, j] := j;
    }
    for i := 1 to m + 1
      invariant forall i', j' :: 0 <= i' < i && 0 <= j' <= n ==> dp[i', j'] == PrefixDistance(word1, word2, i', j')
      invariant forall i' :: i <= i' <= m ==> dp[i', 0] == i'
    {
      for j := 1 to n + 1
        invariant forall i', j' :: 0 <= i' < i && 0 <= j' <= n ==> dp[i', j'] == PrefixDistance(word1, word2, i', j')
        invariant forall j' :: 0 <= j' < j ==> dp[i, j'] == PrefixDistance(word1, word2, i, j')
        invariant forall i' :: i < i' <= m ==> dp[i', 0] == i'
      {
        DistanceStep(word1, word2, i, j);
        if word1[i - 1] == word2[j - 1] {
          dp[i, j] := dp[i - 1, j - 1];
        } else {
          dp[i, j] := 1 + Min3(dp[i - 1, j], dp[i, j - 1], dp[i - 1, j - 1]);
        }
      }
    }
    assert word1[..m] == word1 && word2[..n] == word2;
    d := dp[m, n];
  }

  /** The example at the end of HW9/hw9.py: "horse" is three operations away
      from "ros". */
  lemma HorseToRos()
    ensures Distance("horse", "ros") == 3
  {
    HorsRow();
    assert "horse"[..4] == "hors" && "r"[..0] == "";
    assert Distance("horse", "r") == 4;
    assert Distance("horse", "ro") == 4;
  }

  /** The rows of the table for "h", "ho" and "hor" against "ros". */
  lemma HorRow()
    ensures Distance("hor", "r") == 2 && Distance("hor", "ro") == 2 && Distance("hor", "ros") == 2
  {
    assert Distance("h", "r") == 1;
    assert Distance("h", "ro") == 2;
    assert Distance("h", "ros") == 3;
    assert Distance("ho", "r") == 2;
    assert Distance("ho", "ro") == 1;
    assert Distance("ho", "ros") == 2;
    assert Distance("hor", "r") == 2;
    assert Distance("hor", "ro") == 2;
  }

  /** The row of the table for "hors" against "ros". */
  lemma HorsRow()
    ensures Distance("hors", "r") == 3 && Distance("hors", "ro") == 3 && Distance("hors", "ros") == 2
  {
    HorRow();
    assert Distance("hors", "r") == 3;
    assert "hors"[..3] == "hor" && "ro"[..1] == "r";
    assert Distance("hors", "ro") == 3;
  }
}
