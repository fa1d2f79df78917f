// The key order of a QMap<QString, ...>: `keys()` lists every key once, in
// ascending order of the keys' UTF-16 code units, which is how QString
// compares. The connection builds such maps of contact and group ids and
// sends their keys in that order.
module OrderedKeys {
  /** The UTF-16 code units of one character: itself below 0x10000, a surrogate pair above. */
  function Units(c: char): (r: seq<int>)
    ensures |r| == (if c as int < 0x10000 then 1 else 2)
    ensures forall k :: 0 <= k < |r| ==> 0 <= r[k] < 0x10000
    ensures |r| == 2 ==> 0xD800 <= r[0] < 0xDC00 <= r[1] < 0xE000
  {
    if c as int < 0x10000 then [c as int]
    else
      var v := c as int - 0x10000;
      [0xD800 + v / 0x400, 0xDC00 + v % 0x400]
  }

  /** The code units QString stores for a string. */
  function Utf16(s: string): seq<int>
  {
    if |s| == 0 then [] else Units(s[0]) + Utf16(s[1..])
  }

  /** QString's order: a proper prefix, or the smaller code unit at the first difference. */
  predicate UnitsLess(u: seq<int>, w: seq<int>)
    decreases |u|
  {
    |w| > 0 && (|u| == 0 || u[0] < w[0] || (u[0] == w[0] && UnitsLess(u[1..], w[1..])))
  }

  /**
   * Where a character's first code unit falls in UTF-16 order: characters
   * below the surrogates keep their code, characters with a surrogate pair
   * follow them, and the rest of the basic plane comes last.
   */
  function UnitRank(c: char): int
  {
    if c as int < 0xD800 || c as int >= 0x10000 then c as int else c as int + 0x110000
  }

  /** `a` sorts before `b`: a proper prefix, or a character of lower rank at the first difference; no key sorts before itself. */
  predicate Less(a: string, b: string)
    ensures Less(a, b) ==> a != b
    decreases |a|
  {
    |b| > 0 && (|a| == 0 || UnitRank(a[0]) < UnitRank(b[0]) || (a[0] == b[0] && Less(a[1..], b[1..])))
  }

  /** A common prefix of code units does not decide the order. */
  lemma {:induction false} UnitsLessAfterPrefix(p: seq<int>, u: seq<int>, w: seq<int>)
    ensures UnitsLess(p + u, p + w) == UnitsLess(u, w)
    decreases |p|
  {
    if |p| > 0 {
      assert (p + u)[1..] == p[1..] + u && (p + w)[1..] == p[1..] + w;
      UnitsLessAfterPrefix(p[1..], u, w);
    } else {
      assert p + u == u && p + w == w;
    }
  }

  /** Two different characters are ordered by the code units they start with, whatever follows. */
  lemma UnitsOfDifferentChars(c: char, d: char, u: seq<int>, w: seq<int>)
    requires c != d
    ensures UnitsLess(Units(c) + u, Units(d) + w) <==> UnitRank(c) < UnitRank(d)
  {
    var x, y := Units(c) + u, Units(d) + w;
    assert x[0] == Units(c)[0] && y[0] == Units(d)[0];
    if c as int >= 0x10000 && d as int >= 0x10000 && Units(c)[0] == Units(d)[0] {
      var vc, vd := c as int - 0x10000, d as int - 0x10000;
      assert vc / 0x400 == vd / 0x400;
      assert vc == 0x400 * (vc / 0x400) + vc % 0x400 && vd == 0x400 * (vd / 0x400) + vd % 0x400;
      assert x[1..][0] == Units(c)[1] && y[1..][0] == Units(d)[1];
      assert Units(c)[1] != Units(d)[1];
    }
  }

  /** The order on characters is exactly QString's order on their UTF-16 code units. */
  lemma {:induction false} LessIsUtf16Order(a: string, b: string)
    ensures Less(a, b) <==> UnitsLess(Utf16(a), Utf16(b))
    decreases |a|
  {
    if |a| > 0 && |b| > 0 {
      assert Utf16(a) == Units(a[0]) + Utf16(a[1..]) && Utf16(b) == Units(b[0]) + Utf16(b[1..]);
      if a[0] == b[0] {
        UnitsLessAfterPrefix(Units(a[0]), Utf16(a[1..]), Utf16(b[1..]));
        LessIsUtf16Order(a[1..], b[1..]);
      } else {
        UnitsOfDifferentChars(a[0], b[0], Utf16(a[1..]), Utf16(b[1..]));
      }
    } else if |b| > 0 {
      assert |Utf16(b)| > 0;
    }
  }

  lemma {:induction false} LessTransitive(a: string, b: string, c: string)
    requires Less(a, b) && Less(b, c)
    ensures Less(a, c)
    decreases |a|
  {
    if |a| > 0 && a[0] == c[0] {
      LessTransitive(a[1..], b[1..], c[1..]);
    }
  }

  lemma {:induction false} LessTotal(a: string, b: string)
    requires a != b
    ensures Less(a, b) || Less(b, a)
    decreases |a|
  {
    if |a| > 0 && |b| > 0 {
      if a[0] == b[0] {
        assert a == [a[0]] + a[1..] && b == [b[0]] + b[1..];
        LessTotal(a[1..], b[1..]);
      } else {
        assert a[0] as int != b[0] as int;
      }
    }
  }

  /** Strictly ascending, hence without repetitions. */
  predicate Ascending(xs: seq<string>)
  {
    forall i, j :: 0 <= i < j < |xs| ==> Less(xs[i], xs[j])
  }

  /** Inserting a key into the ordered key list of a map: the key is added unless it is there already. */
  function Insert(x: string, xs: seq<string>): (r: seq<string>)
    ensures forall y :: y in r <==> y == x || y in xs
    ensures |xs| <= |r| <= |xs| + 1
    decreases |xs|
  {
    if |xs| == 0 then [x]
    else if x == xs[0] then xs
    else if Less(x, xs[0]) then [x] + xs
    else [xs[0]] + Insert(x, xs[1..])
  }

  lemma {:induction false} InsertAscending(x: string, xs: seq<string>)
    requires Ascending(xs)
    ensures Ascending(Insert(x, xs))
    decreases |xs|
  {
    if |xs| == 0 || x == xs[0] {
    } else if Less(x, xs[0]) {
      var r := [x] + xs;
      forall i, j | 0 <= i < j < |r| ensures Less(r[i], r[j]) {
        if i == 0 {
          if j > 1 {
            LessTransitive(x, xs[0], xs[j - 1]);
          }
        } else {
          assert r[i] == xs[i - 1] && r[j] == xs[j - 1];
        }
      }
    } else {
      LessTotal(x, xs[0]);
      var rest := xs[1..];
      forall i, j | 0 <= i < j < |rest| ensures Less(rest[i], rest[j]) {
        assert rest[i] == xs[i + 1] && rest[j] == xs[j + 1];
      }
      InsertAscending(x, rest);
      var t := Insert(x, rest);
      forall y | y in t ensures Less(xs[0], y) {
        if y != x {
          var k :| 0 <= k < |rest| && rest[k] == y;
          assert xs[k + 1] == y;
        }
      }
      var r := [xs[0]] + t;
      assert Insert(x, xs) == r;
      forall i, j | 0 <= i < j < |r| ensures Less(r[i], r[j]) {
        assert r[j] == t[j - 1];
        if i == 0 {
          assert r[j] in t;
        } else {
          assert r[i] == t[i - 1];
        }
      }
      assert xs == [xs[0]] + rest;
    }
  }

  /** `keys()` of a map into which these keys were inserted in this order. */
  function Keys(xs: seq<string>): (r: seq<string>)
    ensures forall y :: y in r <==> y in xs
    ensures |r| <= |xs|
  {
    if |xs| == 0 then [] else Insert(xs[|xs| - 1], Keys(xs[..|xs| - 1]))
  }

  /** The keys come out ascending and once each, and they are exactly the keys inserted. */
  lemma {:induction false} KeysAscending(xs: seq<string>)
    ensures Ascending(Keys(xs))
    ensures forall i, j :: 0 <= i < j < |Keys(xs)| ==> Keys(xs)[i] != Keys(xs)[j]
    decreases |xs|
  {
    if |xs| > 0 {
      var init := xs[..|xs| - 1];
      KeysAscending(init);
      InsertAscending(xs[|xs| - 1], Keys(init));
      assert xs == init + [xs[|xs| - 1]];
    }
  }
}
