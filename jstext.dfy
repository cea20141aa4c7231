/**
 * The JavaScript string behaviour the importer and the version script rely on:
 * the whitespace class shared by `String.prototype.trim` and the regular
 * expression escape `\s`, ASCII lower-casing, and the ordering of ISO date
 * strings used by the date sorts.
 */
module JsText {

  import opened Seqs

  /** ECMAScript WhiteSpace and LineTerminator code points: what `\s` matches and `trim` removes. */
  predicate IsJsSpace(c: char)
  {
    || c == '\t' || c == '\n' || c == '\U{000B}' || c == '\U{000C}' || c == '\r' || c == ' '
    || c == '\U{00A0}' || c == '\U{1680}' || ('\U{2000}' <= c <= '\U{200A}')
    || c == '\U{2028}' || c == '\U{2029}' || c == '\U{202F}' || c == '\U{205F}'
    || c == '\U{3000}' || c == '\U{FEFF}'
  }

  /** The characters a regular-expression `.` does not match. */
  predicate IsLineTerminator(c: char)
  {
    c == '\n' || c == '\r' || c == '\U{2028}' || c == '\U{2029}'
  }

  /** What `\d` matches. */
  predicate IsDigit(c: char)
  {
    '0' <= c <= '9'
  }

  ghost predicate AllSpace(s: string)
  {
    forall i :: 0 <= i < |s| ==> IsJsSpace(s[i])
  }

  predicate NoLineTerminator(s: string)
  {
    forall i :: 0 <= i < |s| ==> !IsLineTerminator(s[i])
  }

  /** `s.trimStart()`: a suffix of `s` not starting with whitespace. */
  function TrimStart(s: string): (r: string)
    ensures |r| <= |s| && r == s[|s| - |r|..]
    ensures |r| > 0 ==> !IsJsSpace(r[0])
  {
    if |s| > 0 && IsJsSpace(s[0]) then TrimStart(s[1..]) else s
  }

  /** `s.trimEnd()`: a prefix of `s` not ending with whitespace. */
  function TrimEnd(s: string): (r: string)
    ensures |r| <= |s| && r == s[..|r|]
    ensures |r| > 0 ==> !IsJsSpace(r[|r| - 1])
  {
    if |s| > 0 && IsJsSpace(s[|s| - 1]) then TrimEnd(s[..|s| - 1]) else s
  }

  /** What `trimStart` cuts off is whitespace only. */
  lemma {:induction false} TrimStartSpace(s: string)
    ensures AllSpace(s[..|s| - |TrimStart(s)|])
  {
    if |s| > 0 && IsJsSpace(s[0]) {
      TrimStartSpace(s[1..]);
      var k := |s| - |TrimStart(s)|;
      assert forall i :: 1 <= i < k ==> s[..k][i] == s[1..][..k - 1][i - 1];
    }
  }

  /** What `trimEnd` cuts off is whitespace only. */
  lemma {:induction false} TrimEndSpace(s: string)
    ensures AllSpace(s[|TrimEnd(s)|..])
  {
    if |s| > 0 && IsJsSpace(s[|s| - 1]) {
      TrimEndSpace(s[..|s| - 1]);
      var k := |TrimEnd(s)|;
      assert forall i :: 0 <= i < |s| - 1 - k ==> s[k..][i] == s[..|s| - 1][k..][i];
    }
  }

  /** `s.trim()`. */
  function Trim(s: string): (r: string)
    ensures |r| <= |s|
    ensures |r| > 0 ==> !IsJsSpace(r[0]) && !IsJsSpace(r[|r| - 1])
  {
    TrimEnd(TrimStart(s))
  }

  /** r sits at offset i of s with only whitespace either side of it. */
  ghost predicate SliceAmidSpace(s: string, r: string, i: int)
  {
    0 <= i <= |s| - |r| && r == s[i..i + |r|] && AllSpace(s[..i]) && AllSpace(s[i + |r|..])
  }

  /** The trimmed string is a slice of the original with only whitespace
      cut off either side. */
  lemma {:induction false} TrimSlice(s: string)
    ensures exists i :: SliceAmidSpace(s, Trim(s), i)
  {
    var t := TrimStart(s);
    var r := TrimEnd(t);
    var i := |s| - |t|;
    assert SliceAmidSpace(s, r, i) by {
      assert AllSpace(s[..i]) by {
        TrimStartSpace(s);
      }
      assert AllSpace(t[|r|..]) by {
        TrimEndSpace(t);
      }
      assert r == s[i..i + |r|] by {
        assert t == s[i..];
      }
      assert s[i + |r|..] == t[|r|..];
    }
    assert Trim(s) == r;
    assert SliceAmidSpace(s, Trim(s), i);
  }

  /** Trimming the start skips exactly a leading run of whitespace. */
  lemma {:induction false} TrimStartFrame(a: string, s: string)
    requires AllSpace(a)
    requires |s| == 0 || !IsJsSpace(s[0])
    ensures TrimStart(a + s) == s
  {
    if |a| > 0 {
      assert (a + s)[1..] == a[1..] + s;
      TrimStartFrame(a[1..], s);
    }
  }

  /** Trimming the end skips exactly a trailing run of whitespace. */
  lemma {:induction false} TrimEndFrame(s: string, b: string)
    requires AllSpace(b)
    requires |s| == 0 || !IsJsSpace(s[|s| - 1])
    ensures TrimEnd(s + b) == s
  {
    if |b| > 0 {
      assert (s + b)[..|s + b| - 1] == s + b[..|b| - 1];
      TrimEndFrame(s, b[..|b| - 1]);
    } else {
      assert s + b == s;
    }
  }

  /** `toLowerCase` on the ASCII letters. */
  function LowerAscii(s: string): (r: string)
    ensures |r| == |s|
    ensures forall i :: 0 <= i < |s| ==> r[i] == if 'A' <= s[i] <= 'Z' then (s[i] as int + 32) as char else s[i]
  {
    if |s| == 0 then []
    else
      var c := s[0];
      [if 'A' <= c <= 'Z' then (c as int + 32) as char else c] + LowerAscii(s[1..])
  }

  /** Code-unit lexicographic order of strings: on ISO `YYYY-MM-DD` dates this is
      chronological order and agrees with `localeCompare`. */
  predicate LexLe(a: string, b: string)
  {
    if |a| == 0 then true
    else if |b| == 0 then false
    else if a[0] != b[0] then a[0] < b[0]
    else LexLe(a[1..], b[1..])
  }

  lemma {:induction false} LexLeTotal(a: string, b: string)
    ensures LexLe(a, b) || LexLe(b, a)
  {
    if |a| > 0 && |b| > 0 && a[0] == b[0] {
      LexLeTotal(a[1..], b[1..]);
    }
  }

  lemma {:induction false} LexLeTransitive(a: string, b: string, c: string)
    requires LexLe(a, b) && LexLe(b, c)
    ensures LexLe(a, c)
  {
    if |a| > 0 && |b| > 0 && |c| > 0 && a[0] == b[0] && b[0] == c[0] {
      LexLeTransitive(a[1..], b[1..], c[1..]);
    }
  }

  ghost predicate SortedByText<T>(s: seq<T>, key: T -> string)
  {
    forall i, j :: 0 <= i < j < |s| ==> LexLe(key(s[i]), key(s[j]))
  }

  /** One step of a stable insertion sort by a string key. */
  function InsertByText<T>(x: T, s: seq<T>, key: T -> string): (r: seq<T>)
    ensures |r| == |s| + 1
  {
    if |s| == 0 then [x]
    else if LexLe(key(s[|s| - 1]), key(x)) then s + [x]
    else InsertByText(x, s[..|s| - 1], key) + [s[|s| - 1]]
  }

  lemma {:induction false} InsertByTextCorrect<T>(x: T, s: seq<T>, key: T -> string)
    requires SortedByText(s, key)
    ensures SortedByText(InsertByText(x, s, key), key)
    ensures multiset(InsertByText(x, s, key)) == multiset(s) + multiset{x}
    decreases |s|
  {
    if |s| == 0 {
    } else if LexLe(key(s[|s| - 1]), key(x)) {
      forall k | 0 <= k < |s| - 1
        ensures LexLe(key(s[k]), key(x))
      {
        LexLeTransitive(key(s[k]), key(s[|s| - 1]), key(x));
      }
      SortedByTextSnoc(s, x, key);
    } else {
      var init, last := s[..|s| - 1], s[|s| - 1];
      assert s == init + [last];
      var r' := InsertByText(x, init, key);
      InsertByTextCorrect(x, init, key);
      LexLeTotal(key(last), key(x));
      forall k | 0 <= k < |r'|
        ensures LexLe(key(r'[k]), key(last))
      {
        assert r'[k] in multiset(r');
        if r'[k] != x {
          assert r'[k] in multiset(init);
        }
      }
      SortedByTextSnoc(r', last, key);
    }
  }

  lemma {:induction false} SortedByTextSnoc<T>(s: seq<T>, x: T, key: T -> string)
    requires SortedByText(s, key)
    requires forall k :: 0 <= k < |s| ==> LexLe(key(s[k]), key(x))
    ensures SortedByText(s + [x], key)
  {
  }

  /** The stable `Array.prototype.sort` with `(a, b) => key(a).localeCompare(key(b))`. */
  function SortByText<T>(s: seq<T>, key: T -> string): (r: seq<T>)
    ensures SortedByText(r, key)
    ensures multiset(r) == multiset(s)
    ensures |r| == |s|
  {
    if |s| == 0 then []
    else
      var init, last := s[..|s| - 1], s[|s| - 1];
      InsertByTextCorrect(last, SortByText(init, key), key);
      assert s == init + [last];
      InsertByText(last, SortByText(init, key), key)
  }

  /** Sorting and then mapping with a function that keeps the key is the same as
      mapping and then sorting: the sort only looks at the key and is stable. */
  lemma {:induction false} MapSortCommute<T, U>(s: seq<T>, f: T -> U, key: T -> string, key': U -> string)
    requires forall x :: key'(f(x)) == key(x)
    ensures MapSeq(SortByText(s, key), f) == SortByText(MapSeq(s, f), key')
    decreases |s|
  {
    if |s| > 0 {
      var init, last := s[..|s| - 1], s[|s| - 1];
      MapSortCommute(init, f, key, key');
      assert MapSeq(s, f)[..|s| - 1] == MapSeq(init, f);
      MapInsertCommute(last, SortByText(init, key), f, key, key');
    }
  }

  lemma {:induction false} MapInsertCommute<T, U>(x: T, s: seq<T>, f: T -> U, key: T -> string, key': U -> string)
    requires forall y :: key'(f(y)) == key(y)
    ensures MapSeq(InsertByText(x, s, key), f) == InsertByText(f(x), MapSeq(s, f), key')
    decreases |s|
  {
    if |s| > 0 {
      var init, last := s[..|s| - 1], s[|s| - 1];
      assert MapSeq(s, f)[..|s| - 1] == MapSeq(init, f);
      if !LexLe(key(last), key(x)) {
        MapInsertCommute(x, init, f, key, key');
      }
    }
  }
}
