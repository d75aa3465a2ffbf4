/** Substring search and separator joins for error messages and qualified names. */
module Text {

  /** True when `sub` occurs in `s` starting at position `i`. */
  predicate OccursAt(s: string, sub: string, i: int)
  {
    0 <= i && i + |sub| <= |s| && s[i .. i + |sub|] == sub
  }

  /** True when `sub` occurs somewhere in `s` (Go's `strings.Contains`). */
  predicate Contains(s: string, sub: string)
  {
    exists i | 0 <= i <= |s| :: OccursAt(s, sub, i)
  }

  lemma ContainsInMiddle(a: string, b: string, c: string)
    ensures Contains(a + b + c, b)
  {
    assert (a + b + c)[|a| .. |a| + |b|] == b;
    assert OccursAt(a + b + c, b, |a|);
  }

  /** An occurrence survives putting text before and after. */
  lemma ContainsWithin(a: string, s: string, c: string, sub: string)
    requires Contains(s, sub)
    ensures Contains(a + s + c, sub)
  {
    var i :| 0 <= i <= |s| && OccursAt(s, sub, i);
    assert (a + s + c)[|a| + i .. |a| + i + |sub|] == s[i .. i + |sub|];
    assert OccursAt(a + s + c, sub, |a| + i);
  }

  /** The items with `sep` between consecutive ones (Go's `strings.Join`). */
  function JoinWith(items: seq<string>, sep: string): string
  {
    if items == [] then ""
    else if |items| == 1 then items[0]
    else items[0] + sep + JoinWith(items[1..], sep)
  }

  /** Every item can be found in the joined text. */
  lemma {:induction false} JoinContainsItems(items: seq<string>, sep: string)
    ensures forall k | 0 <= k < |items| :: Contains(JoinWith(items, sep), items[k])
  {
    if |items| == 1 {
      ContainsInMiddle("", items[0], "");
      assert "" + items[0] + "" == items[0];
    } else if |items| > 1 {
      var rest := JoinWith(items[1..], sep);
      JoinContainsItems(items[1..], sep);
      ContainsInMiddle("", items[0], sep + rest);
      assert "" + items[0] + (sep + rest) == JoinWith(items, sep);
      forall k | 1 <= k < |items| ensures Contains(JoinWith(items, sep), items[k]) {
        assert items[k] == items[1..][k - 1];
        ContainsWithin(items[0] + sep, rest, "", items[k]);
        assert items[0] + sep + rest + "" == JoinWith(items, sep);
      }
    }
  }

  /** Occurrence is transitive: text found in a part is found in the whole. */
  lemma ContainsTransitive(s: string, mid: string, sub: string)
    requires Contains(s, mid) && Contains(mid, sub)
    ensures Contains(s, sub)
  {
    var i :| 0 <= i <= |s| && OccursAt(s, mid, i);
    var j :| 0 <= j <= |mid| && OccursAt(mid, sub, j);
    assert s[i .. i + |mid|] == mid;
    assert mid[j .. j + |sub|] == sub;
    forall t | 0 <= t < |sub| ensures s[i + j + t] == sub[t] {
      assert sub[t] == mid[j + t] == s[i .. i + |mid|][j + t];
    }
    assert s[i + j .. i + j + |sub|] == sub;
    assert OccursAt(s, sub, i + j);
  }
}
