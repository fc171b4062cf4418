/**
 * Strings and file paths as the source manipulates them: substring tests
 * (`in` in Python, `includes` in JavaScript), suffix tests, the last path
 * component, the parent directory, the extension split and decimal rendering
 * of counters. Paths are joined with a single "/"; no normalisation of "..".
 */
module Paths {

  /** `t` occurs in `s` starting at index `i`. */
  ghost predicate OccursAt(s: string, t: string, i: int) {
    0 <= i && i + |t| <= |s| && s[i..i + |t|] == t
  }

  /** Substring test: Python's `t in s`, JavaScript's `s.includes(t)`. */
  function Contains(s: string, t: string): (b: bool)
    ensures b <==> exists i :: OccursAt(s, t, i)
    decreases |s|
  {
    if |t| > |s| then false
    else if |t| == 0 then assert OccursAt(s, t, 0); true
    else if s[..|t|] == t then assert OccursAt(s, t, 0); true
    else
      ShiftOccurrence(s, t);
      Contains(s[1..], t)
  }

  /** Dropping the first character loses no occurrence when none starts at 0. */
  lemma ShiftOccurrence(s: string, t: string)
    requires 0 < |t| <= |s| && s[..|t|] != t
    ensures (exists i :: OccursAt(s, t, i)) <==> (exists i :: OccursAt(s[1..], t, i))
  {
    if i :| OccursAt(s, t, i) {
      assert i != 0;
      assert s[1..][i - 1..i - 1 + |t|] == s[i..i + |t|];
      assert OccursAt(s[1..], t, i - 1);
    }
    if i :| OccursAt(s[1..], t, i) {
      assert s[1..][i..i + |t|] == s[i + 1..i + 1 + |t|];
      assert OccursAt(s, t, i + 1);
    }
  }

  /** A string that lacks the first character of `t` cannot contain `t`. */
  lemma {:induction false} NotContainsWithoutHead(s: string, t: string)
    requires |t| > 0 && t[0] !in s
    ensures !Contains(s, t)
  {
    if i :| OccursAt(s, t, i) {
      assert false;
    }
  }

  /** A string contains every string it starts with. */
  lemma ContainsPrefix(t: string, rest: string)
    ensures Contains(t + rest, t)
  {
    assert (t + rest)[0..|t|] == t;
    assert OccursAt(t + rest, t, 0);
  }

  /** Python's `s.endswith(suffix)`. */
  predicate EndsWith(s: string, suffix: string) {
    |suffix| <= |s| && s[|s| - |suffix|..] == suffix
  }

  /** ASCII lower-casing of one character. */
  function LowerChar(c: char): char {
    if 'A' <= c <= 'Z' then (c as int + 32) as char else c
  }

  /** Python's `s.lower()` restricted to ASCII letters. */
  function ToLower(s: string): (r: string)
    ensures |r| == |s|
    ensures forall i :: 0 <= i < |s| ==> r[i] == LowerChar(s[i])
  {
    seq(|s|, i requires 0 <= i < |s| => LowerChar(s[i]))
  }

  /** Lower-casing works character by character, so it distributes over concatenation. */
  lemma ToLowerAppend(a: string, b: string)
    ensures ToLower(a + b) == ToLower(a) + ToLower(b)
  {
  }

  /** A suffix no longer than `q` is a suffix of `p + q` exactly when it is one of `q`. */
  lemma EndsWithAppend(p: string, q: string, x: string)
    requires |x| <= |q|
    ensures EndsWith(p + q, x) <==> EndsWith(q, x)
  {
    assert (p + q)[|p + q| - |x|..] == q[|q| - |x|..];
  }

  /** Index of the last `c` in `s`, or -1. */
  function LastIndexOf(s: string, c: char): (k: int)
    ensures -1 <= k < |s|
    ensures k >= 0 ==> s[k] == c
    ensures forall j :: k < j < |s| ==> s[j] != c
  {
    if |s| == 0 then -1
    else if s[|s| - 1] == c then |s| - 1
    else LastIndexOf(s[..|s| - 1], c)
  }

  /** `path.join(a, b)` / `os.path.join(a, b)` for a relative `b`. */
  function Join(a: string, b: string): string {
    a + "/" + b
  }

  /** `os.path.basename(p)`: what follows the last "/". */
  function Basename(p: string): (r: string)
    ensures '/' !in r
    ensures |r| <= |p|
  {
    NoSlashAfterLast(p);
    p[LastIndexOf(p, '/') + 1..]
  }

  /**
   * The basename is the longest end of `p` without a "/": the whole of `p`,
   * or what follows its last "/".
   */
  lemma BasenameSpec(p: string)
    ensures var r := Basename(p);
      && p[|p| - |r|..] == r
      && (|r| < |p| ==> p[|p| - |r| - 1] == '/')
  {
  }

  lemma NoSlashAfterLast(p: string)
    ensures '/' !in p[LastIndexOf(p, '/') + 1..]
  {
    var k := LastIndexOf(p, '/');
    var r := p[k + 1..];
    forall i | 0 <= i < |r| ensures r[i] != '/' {
      assert r[i] == p[k + 1 + i];
    }
  }

  /** Node's `path.dirname(p)`: "." without a "/", "/" for a top-level entry. */
  function Dirname(p: string): string {
    var k := LastIndexOf(p, '/');
    if k < 0 then "." else if k == 0 then "/" else p[..k]
  }

  /** The last "/" of `a + "/" + b` is the one `Join` inserted. */
  lemma LastSlashOfJoin(a: string, b: string)
    requires '/' !in b
    ensures LastIndexOf(Join(a, b), '/') == |a|
  {
    var p := Join(a, b);
    var k := LastIndexOf(p, '/');
    assert p[|a|] == '/';
    forall j | |a| < j < |p| ensures p[j] != '/' {
      assert p[j] == b[j - |a| - 1];
    }
  }

  /** Joining a directory and a plain name and taking the parent gives the directory back. */
  lemma DirnameOfJoin(a: string, b: string)
    requires a != "" && '/' !in b
    ensures Dirname(Join(a, b)) == a
  {
    LastSlashOfJoin(a, b);
    assert Join(a, b)[..|a|] == a;
  }

  /** Joining a directory and a plain name and taking the last component gives the name back. */
  lemma BasenameOfJoin(a: string, b: string)
    requires '/' !in b
    ensures Basename(Join(a, b)) == b
  {
    LastSlashOfJoin(a, b);
    assert Join(a, b)[|a| + 1..] == b;
  }

  /** Every character of `s` is a ".". */
  predicate AllDots(s: string)
    decreases |s|
  {
    s == [] || (s[0] == '.' && AllDots(s[1..]))
  }

  lemma {:induction false} AllDotsIff(s: string)
    ensures AllDots(s) <==> forall i :: 0 <= i < |s| ==> s[i] == '.'
    decreases |s|
  {
    if s != [] {
      AllDotsIff(s[1..]);
      assert forall i :: 1 <= i < |s| ==> s[i] == s[1..][i - 1];
    }
  }

  /**
   * The "." at `k` starts an extension: it is the last "." of `name` and
   * some character before it is not a ".".
   */
  ghost predicate ExtDotAt(name: string, k: int) {
    && 0 <= k < |name|
    && name[k] == '.'
    && (forall j :: k < j < |name| ==> name[j] != '.')
    && (exists i :: 0 <= i < k && name[i] != '.')
  }

  /**
   * `os.path.splitext(name)` for a name without "/": the extension starts at
   * the last "." unless everything before that dot is dots.
   */
  function SplitExt(name: string): (string, string) {
    var k := LastIndexOf(name, '.');
    if k <= 0 || AllDots(name[..k]) then (name, "") else (name[..k], name[k..])
  }

  /**
   * The split cuts the name in two: the extension is non-empty exactly when
   * the last "." has something other than "." before it, and it then runs
   * from that "." to the end; otherwise the base is the whole name.
   */
  lemma SplitExtSpec(name: string)
    ensures var (base, ext) := SplitExt(name);
      && base + ext == name
      && (ext != "" <==> exists k :: ExtDotAt(name, k))
      && (forall k :: ExtDotAt(name, k) ==> base == name[..k] && ext == name[k..])
      && (ext != "" ==> ext[0] == '.' && '.' !in ext[1..])
      && ('.' !in name ==> ext == "")
  {
    var k := LastIndexOf(name, '.');
    if 0 <= k {
      AllDotsIff(name[..k]);
      assert forall i :: 0 <= i < k ==> name[..k][i] == name[i];
    }
    forall k' | ExtDotAt(name, k') ensures k' == k {
    }
    if 0 < k && !AllDots(name[..k]) {
      assert ExtDotAt(name, k);
      assert name[..k] + name[k..] == name;
      var ext := name[k..];
      forall i | 1 <= i < |ext| ensures ext[i] != '.' {
        assert ext[i] == name[k + i];
      }
    }
  }

  function DigitChar(d: nat): char
    requires d < 10
  {
    ('0' as int + d) as char
  }

  /** Decimal rendering of a counter, as `${n}` and f"{n}" print it. */
  function NatToString(n: nat): (r: string)
    ensures |r| > 0
    ensures forall i :: 0 <= i < |r| ==> '0' <= r[i] <= '9'
    decreases n
  {
    if n < 10 then [DigitChar(n)] else NatToString(n / 10) + [DigitChar(n % 10)]
  }

  /** The number a string of decimal digits denotes. */
  function DigitsValue(s: string): int
    decreases |s|
  {
    if s == [] then 0 else DigitsValue(s[..|s| - 1]) * 10 + (s[|s| - 1] as int - '0' as int)
  }

  /** The rendering denotes `n` and has no leading zero. */
  lemma {:induction false} NatToStringValue(n: nat)
    ensures DigitsValue(NatToString(n)) == n
    ensures n > 0 ==> NatToString(n)[0] != '0'
    ensures |NatToString(n)| > 1 ==> NatToString(n)[0] != '0'
    decreases n
  {
    if n >= 10 {
      var r := NatToString(n);
      var init := NatToString(n / 10);
      NatToStringValue(n / 10);
      assert r[..|r| - 1] == init;
    }
  }

  /**
   * `f"{base}_{n}{ext}"` over `os.path.splitext(name)`: the collision name
   * both the Inbox copy and the engine's move fall back to. It is longer than
   * `name`, so never `name` itself, and adds no "/".
   */
  function Suffixed(name: string, n: nat): (r: string)
    ensures |r| > |name|
    ensures '/' !in name ==> '/' !in r
  {
    var (base, ext) := SplitExt(name);
    SplitExtSpec(name);
    assert '/' !in name ==> '/' !in base && '/' !in ext by {
      assert name == base + ext;
      if '/' !in name {
        assert forall i :: 0 <= i < |base| ==> base[i] == name[i];
        assert forall i :: 0 <= i < |ext| ==> ext[i] == name[|base| + i];
      }
    }
    base + "_" + NatToString(n) + ext
  }

  /** The suffix goes between base and extension: splitting the new name gives `base_n` and the same extension. */
  lemma SplitExtOfSuffixed(name: string, n: nat)
    ensures SplitExt(Suffixed(name, n)) == (SplitExt(name).0 + "_" + NatToString(n), SplitExt(name).1)
  {
    var (b, e) := SplitExt(name);
    var d := NatToString(n);
    assert '.' !in d;
    SplitExtSpec(name);
    if e != "" {
      SplitKeepsExt(b, d, e);
    } else {
      assert b == name;
      assert Suffixed(name, n) == name + "_" + d;
      SplitKeepsNoExt(name, d);
    }
  }

  lemma SplitKeepsExt(b: string, d: string, e: string)
    requires e != "" && e[0] == '.' && '.' !in e[1..] && '.' !in d
    ensures SplitExt(b + "_" + d + e) == (b + "_" + d, e)
  {
    var mid := b + "_" + d;
    var s := mid + e;
    var k := |mid|;
    SplitExtSpec(s);
    forall j | k < j < |s| ensures s[j] != '.' {
      assert s[j] == e[1..][j - k - 1];
    }
    assert s[|b|] == '_';
    assert ExtDotAt(s, k);
    assert s[..k] == mid;
    assert s[k..] == e;
  }

  lemma SplitKeepsNoExt(name: string, d: string)
    requires SplitExt(name).1 == "" && '.' !in d
    ensures SplitExt(name + "_" + d) == (name + "_" + d, "")
  {
    var s := name + "_" + d;
    SplitExtSpec(name);
    SplitExtSpec(s);
    forall k | ExtDotAt(s, k) ensures ExtDotAt(name, k) {
      ExtDotBeforeSuffix(name, d, k);
    }
  }

  /** An extension dot of `name + "_" + d` lies in `name` when `d` has no ".". */
  lemma ExtDotBeforeSuffix(name: string, d: string, k: int)
    requires '.' !in d && ExtDotAt(name + "_" + d, k)
    ensures ExtDotAt(name, k)
  {
    var s := name + "_" + d;
    if k >= |name| {
      assert false;
    }
    forall j | k < j < |name| ensures name[j] != '.' {
      assert name[j] == s[j];
    }
    var i :| 0 <= i < k && s[i] != '.';
    assert name[i] == s[i];
  }
}
