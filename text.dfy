/** String primitives the two runtimes provide: Python's `str.strip()` and
    `str.split(sep)`, and JavaScript's `String.prototype.trim()`.  The two
    runtimes disagree on what counts as white space, so the trimming
    functions take the runtime as a parameter. */
module Text {

  datatype Runtime = Python | JavaScript

  /** White space as the runtime's trimming sees it.  Both runtimes treat
      as white space the controls TAB through CR, the space, the no-break
      space and the other space separators, and the line and paragraph
      separators.  Python's `str.isspace()` adds the separator controls
      U+001C to U+001F and NEL (U+0085); ECMAScript's `trim()` adds the
      byte-order mark U+FEFF instead. */
  predicate IsSpace(c: char, rt: Runtime) {
    var n := c as int;
    (9 <= n <= 13) || n == 32 || n == 0xA0 || n == 0x1680 || (0x2000 <= n <= 0x200A)
    || n == 0x2028 || n == 0x2029 || n == 0x202F || n == 0x205F || n == 0x3000
    || (if rt == Python then (28 <= n <= 31) || n == 0x85 else n == 0xFEFF)
  }

  predicate AllSpace(s: string, rt: Runtime) {
    forall i :: 0 <= i < |s| ==> IsSpace(s[i], rt)
  }

  lemma AllSpaceConcat(a: string, b: string, rt: Runtime)
    ensures AllSpace(a + b, rt) <==> AllSpace(a, rt) && AllSpace(b, rt)
  {
    if AllSpace(a, rt) && AllSpace(b, rt) {
      forall i | 0 <= i < |a + b| ensures IsSpace((a + b)[i], rt) {
        if i >= |a| { assert (a + b)[i] == b[i - |a|]; }
      }
    }
    if AllSpace(a + b, rt) {
      forall i | 0 <= i < |a| ensures IsSpace(a[i], rt) {
        assert (a + b)[i] == a[i];
      }
      forall i | 0 <= i < |b| ensures IsSpace(b[i], rt) {
        assert (a + b)[|a| + i] == b[i];
      }
    }
  }

  /** Neither the first nor the last character is white space. */
  predicate NoEdgeSpace(s: string, rt: Runtime) {
    s == [] || (!IsSpace(s[0], rt) && !IsSpace(s[|s| - 1], rt))
  }

  /** Drops the white space at the front. */
  function TrimStart(s: string, rt: Runtime): (r: string)
    ensures |r| <= |s|
  {
    if |s| > 0 && IsSpace(s[0], rt) then TrimStart(s[1..], rt) else s
  }

  /** What `TrimStart` keeps is a suffix of `s` that does not start with
      white space, and all that it drops is white space. */
  lemma {:induction false} TrimStartSpec(s: string, rt: Runtime)
    ensures TrimStart(s, rt) == s[|s| - |TrimStart(s, rt)|..]
    ensures AllSpace(s[..|s| - |TrimStart(s, rt)|], rt)
    ensures TrimStart(s, rt) == [] || !IsSpace(TrimStart(s, rt)[0], rt)
  {
    if |s| > 0 && IsSpace(s[0], rt) {
      TrimStartSpec(s[1..], rt);
      var k := |s| - |TrimStart(s, rt)|;
      assert s[..k] == [s[0]] + s[1..][..k - 1];
      AllSpaceConcat([s[0]], s[1..][..k - 1], rt);
    }
  }

  /** Drops the white space at the back. */
  function TrimEnd(s: string, rt: Runtime): (r: string)
    ensures |r| <= |s|
  {
    if |s| > 0 && IsSpace(s[|s| - 1], rt) then TrimEnd(s[..|s| - 1], rt) else s
  }

  /** What `TrimEnd` keeps is a prefix of `s` that does not end with white
      space, and all that it drops is white space. */
  lemma {:induction false} TrimEndSpec(s: string, rt: Runtime)
    ensures TrimEnd(s, rt) == s[..|TrimEnd(s, rt)|]
    ensures AllSpace(s[|TrimEnd(s, rt)|..], rt)
    ensures TrimEnd(s, rt) == [] || !IsSpace(TrimEnd(s, rt)[|TrimEnd(s, rt)| - 1], rt)
  {
    if |s| > 0 && IsSpace(s[|s| - 1], rt) {
      var t := s[..|s| - 1];
      TrimEndSpec(t, rt);
      var k := |TrimEnd(s, rt)|;
      assert s[k..] == t[k..] + [s[|s| - 1]];
      AllSpaceConcat(t[k..], [s[|s| - 1]], rt);
    }
  }

  /** `s.strip()` in Python, `s.trim()` in JavaScript: neither end of the
      result is white space (see `TrimOfPadded` and `TrimDecomposition` for
      the full characterisation). */
  function Trim(s: string, rt: Runtime): (r: string)
    ensures NoEdgeSpace(r, rt)
  {
    var front := TrimStart(s, rt);
    var r := TrimEnd(front, rt);
    TrimStartSpec(s, rt);
    TrimEndSpec(front, rt);
    assert r != [] ==> !IsSpace(r[0], rt) by {
      if r != [] { assert r[0] == front[0]; }
    }
    r
  }

  /** Trimming leaves nothing exactly when the string is all white space. */
  lemma TrimEmptyIffBlank(s: string, rt: Runtime)
    ensures Trim(s, rt) == [] <==> AllSpace(s, rt)
  {
    var front := TrimStart(s, rt);
    var r := TrimEnd(front, rt);
    TrimStartSpec(s, rt);
    TrimEndSpec(front, rt);
    if r == [] {
      assert front == front[|r|..];
      assert s == s[..|s| - |front|] + front;
      AllSpaceConcat(s[..|s| - |front|], front, rt);
    }
  }

  /** Trimming keeps a contiguous part of its input, so it brings in no
      character that was not there. */
  lemma TrimKeepsCharacters(s: string, c: char, rt: Runtime)
    requires c !in s
    ensures c !in Trim(s, rt)
  {
    var front := TrimStart(s, rt);
    TrimStartSpec(s, rt);
    TrimEndSpec(front, rt);
    assert c !in front by {
      assert forall i :: 0 <= i < |front| ==> front[i] == s[|s| - |front| + i];
    }
  }

  /** Characterises `Trim` independently of how it is computed: white space
      on both sides of a string without white space at its edges is exactly
      what is removed. */
  lemma {:induction false} TrimOfPadded(front: string, middle: string, back: string, rt: Runtime)
    requires AllSpace(front, rt) && AllSpace(back, rt) && NoEdgeSpace(middle, rt)
    ensures Trim(front + middle + back, rt) == middle
  {
    var s := front + middle + back;
    if middle == [] {
      assert s == front + back;
      AllSpaceConcat(front, back, rt);
      TrimEmptyIffBlank(s, rt);
    } else {
      TrimStartOfPadded(front, middle + back, rt);
      assert s == front + (middle + back);
      TrimEndOfPadded(middle, back, rt);
    }
  }

  lemma {:induction false} TrimStartOfPadded(front: string, rest: string, rt: Runtime)
    requires AllSpace(front, rt)
    requires rest == [] || !IsSpace(rest[0], rt)
    ensures TrimStart(front + rest, rt) == rest
  {
    if front == [] {
      assert front + rest == rest;
    } else {
      assert (front + rest)[1..] == front[1..] + rest;
      TrimStartOfPadded(front[1..], rest, rt);
    }
  }

  lemma {:induction false} TrimEndOfPadded(middle: string, back: string, rt: Runtime)
    requires AllSpace(back, rt) && NoEdgeSpace(middle, rt)
    ensures TrimEnd(middle + back, rt) == middle
  {
    if back == [] {
      assert middle + back == middle;
    } else {
      var shorter := back[..|back| - 1];
      assert (middle + back)[..|middle + back| - 1] == middle + shorter;
      assert (middle + back)[|middle + back| - 1] == back[|back| - 1];
      TrimEndOfPadded(middle, shorter, rt);
    }
  }

  /** The other half of the characterisation: every string is its trimmed
      form padded with white space on both sides. */
  lemma TrimDecomposition(s: string, rt: Runtime)
    ensures exists i :: 0 <= i <= |s| - |Trim(s, rt)| && s[i..i + |Trim(s, rt)|] == Trim(s, rt)
                        && AllSpace(s[..i], rt) && AllSpace(s[i + |Trim(s, rt)|..], rt)
  {
    var f := TrimStart(s, rt);
    var r := TrimEnd(f, rt);
    TrimStartSpec(s, rt);
    TrimEndSpec(f, rt);
    var i := |s| - |f|;
    assert Trim(s, rt) == r;
    assert s[i + |r|..] == f[|r|..];
    assert 0 <= i <= |s| - |Trim(s, rt)| && s[i..i + |Trim(s, rt)|] == Trim(s, rt)
           && AllSpace(s[..i], rt) && AllSpace(s[i + |Trim(s, rt)|..], rt);
  }

  /** A string without white space at its edges is left as it is. */
  lemma TrimOfClean(s: string, rt: Runtime)
    requires NoEdgeSpace(s, rt)
    ensures Trim(s, rt) == s
  {
    TrimOfPadded([], s, [], rt);
    assert [] + s + [] == s;
  }

  /** Trimming twice is trimming once. */
  lemma TrimIdempotent(s: string, rt: Runtime)
    ensures Trim(Trim(s, rt), rt) == Trim(s, rt)
  {
    TrimOfClean(Trim(s, rt), rt);
  }

  /** Python's `s.split(sep)` for a one-character separator: the pieces
      between separators, in order, empty pieces included. */
  function Split(s: string, sep: char): (parts: seq<string>)
    ensures |parts| >= 1
    ensures forall i :: 0 <= i < |parts| ==> sep !in parts[i]
  {
    if |s| == 0 then [""]
    else
      var rest := Split(s[1..], sep);
      if s[0] == sep then [""] + rest
      else [[s[0]] + rest[0]] + rest[1..]
  }

  /** Python's `sep.join(parts)`. */
  function Join(parts: seq<string>, sep: char): string
    requires |parts| >= 1
  {
    if |parts| == 1 then parts[0] else parts[0] + [sep] + Join(parts[1..], sep)
  }

  /** The number of occurrences of `c` in `s`. */
  function Occurrences(s: string, c: char): nat {
    if s == [] then 0 else (if s[0] == c then 1 else 0) + Occurrences(s[1..], c)
  }

  /** Splitting loses nothing: joining the pieces back gives the input. */
  lemma {:induction false} JoinSplit(s: string, sep: char)
    ensures Join(Split(s, sep), sep) == s
  {
    if |s| > 0 {
      var rest := Split(s[1..], sep);
      JoinSplit(s[1..], sep);
      if s[0] == sep {
        assert Split(s, sep)[1..] == rest;
      } else {
        var parts := Split(s, sep);
        assert parts[1..] == rest[1..];
        if |rest| > 1 {
          assert rest[1..][1..] == rest[2..];
        }
      }
    }
  }

  /** There is one piece more than there are separators. */
  lemma {:induction false} SplitCount(s: string, sep: char)
    ensures |Split(s, sep)| == Occurrences(s, sep) + 1
  {
    if |s| > 0 {
      SplitCount(s[1..], sep);
    }
  }

  /** A piece without a separator, put in front of `t`, joins the first
      piece of `t`. */
  lemma {:induction false} SplitPrefix(p: string, t: string, sep: char)
    requires sep !in p
    ensures Split(p + t, sep) == [p + Split(t, sep)[0]] + Split(t, sep)[1..]
  {
    if p == [] {
      assert p + t == t;
      assert Split(t, sep) == [Split(t, sep)[0]] + Split(t, sep)[1..];
      assert p + Split(t, sep)[0] == Split(t, sep)[0];
    } else {
      assert (p + t)[0] == p[0];
      assert (p + t)[1..] == p[1..] + t;
      SplitPrefix(p[1..], t, sep);
      assert [p[0]] + (p[1..] + Split(t, sep)[0]) == p + Split(t, sep)[0];
    }
  }

  /** Joining pieces that contain no separator and splitting again gives
      the pieces back. */
  lemma {:induction false} SplitJoin(parts: seq<string>, sep: char)
    requires |parts| >= 1
    requires forall i :: 0 <= i < |parts| ==> sep !in parts[i]
    ensures Split(Join(parts, sep), sep) == parts
  {
    if |parts| == 1 {
      SplitPrefix(parts[0], "", sep);
      assert parts[0] + "" == parts[0];
    } else {
      var rest := Join(parts[1..], sep);
      SplitJoin(parts[1..], sep);
      SplitPrefix(parts[0], [sep] + rest, sep);
      assert ([sep] + rest)[1..] == rest;
      assert parts[0] + [sep] + rest == parts[0] + ([sep] + rest);
      assert parts[0] + "" == parts[0];
      assert parts == [parts[0]] + parts[1..];
    }
  }
}
