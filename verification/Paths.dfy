/** Node paths: splitting at the last slash, and the suffix that a sequential parent appends. */
module Paths {

  predicate NoSlash(s: string) {
    forall i :: 0 <= i < |s| ==> s[i] != '/'
  }

  predicate IsName(s: string) {
    s != "" && NoSlash(s)
  }

  function Join(parent: string, child: string): string {
    parent + "/" + child
  }

  /** `path.find_last_of('/')` among the first n characters, with -1 for npos. */
  function LastSlash(path: string, n: nat): (r: int)
    requires n <= |path|
    ensures -1 <= r < n
    ensures r >= 0 ==> path[r] == '/'
    ensures forall i :: r < i < n ==> path[i] != '/'
  {
    if n == 0 then -1
    else if path[n - 1] == '/' then n - 1
    else LastSlash(path, n - 1)
  }

  datatype Parsed = BadPath | Parts(parent: string, child: string)

  /** `DataTree::ParsePath`; BadPath stands for RC_ERRPATH. */
  function ParsePath(path: string): (r: Parsed)
    ensures r.Parts? ==> IsName(r.child) && path == Join(r.parent, r.child)
  {
    var found := LastSlash(path, |path|);
    if found == -1 then BadPath
    else
      var child := path[found + 1..];
      if child == "" then BadPath
      else
        assert path == Join(path[..found], child);
        Parts(path[..found], child)
  }

  /** A path is refused exactly when it has no slash or ends in one. */
  lemma {:induction false} BadPathExact(path: string)
    ensures ParsePath(path).BadPath? <==> NoSlash(path) || path[|path| - 1] == '/'
  {
    var r := ParsePath(path);
    if r.Parts? {
      assert path[|r.parent|] == '/';
      assert path[|path| - 1] == r.child[|r.child| - 1];
    }
  }

  /** Splitting and joining are inverse: a path has the parts (q, c) exactly when it is q, a slash and a name c. */
  lemma {:induction false} ParseExact(path: string, parent: string, child: string)
    ensures ParsePath(path) == Parts(parent, child) <==> path == Join(parent, child) && IsName(child)
  {
    if path == Join(parent, child) && IsName(child) {
      var k := |parent|;
      assert path[k] == '/' && path[k + 1..] == child;
      assert forall i :: k < i < |path| ==> path[i] == child[i - k - 1];
      assert LastSlash(path, |path|) == k;
      assert path[..k] == parent;
    }
  }

  lemma {:induction false} ParseJoin()
    ensures forall q, c {:trigger Join(q, c)} :: IsName(c) ==> ParsePath(Join(q, c)) == Parts(q, c)
  {
    forall q, c | IsName(c)
      ensures ParsePath(Join(q, c)) == Parts(q, c)
    {
      ParseExact(Join(q, c), q, c);
    }
  }

  /** The last `width` decimal digits of n, zero-padded. */
  function Digits(n: nat, width: nat): (s: string)
    ensures |s| == width
    ensures NoSlash(s)
  {
    if width == 0 then ""
    else
      var d := '0' + (n % 10) as char;
      Digits(n / 10, width - 1) + [d]
  }

  const SUFFIX_WIDTH := 11

  /** `snprintf("_%010d", n)`: ten digits hold every non-negative int32. */
  function Suffix(n: nat): (s: string)
    ensures |s| == SUFFIX_WIDTH
    ensures NoSlash(s)
  {
    "_" + Digits(n, 10)
  }

  /** The order of `std::string::operator<`. */
  ghost predicate LexLess(a: string, b: string) {
    || (|a| < |b| && a == b[..|a|])
    || exists k :: 0 <= k < |a| && k < |b| && a[..k] == b[..k] && a[k] < b[k]
  }

  function Pow10(w: nat): (r: nat)
    ensures r > 0
  {
    if w == 0 then 1 else 10 * Pow10(w - 1)
  }

  lemma {:induction false} DigitsOrder(a: nat, b: nat, width: nat) returns (k: nat)
    requires a < b < Pow10(width)
    ensures k < width
    ensures Digits(a, width)[..k] == Digits(b, width)[..k]
    ensures Digits(a, width)[k] < Digits(b, width)[k]
  {
    if a / 10 == b / 10 {
      k := width - 1;
    } else {
      k := DigitsOrder(a / 10, b / 10, width - 1);
      var x, y := Digits(a / 10, width - 1), Digits(b / 10, width - 1);
      assert Digits(a, width)[..k] == x[..k] && Digits(b, width)[..k] == y[..k];
    }
  }

  /** A decimal numeral read as a number. */
  function Value(s: string): nat
    requires forall i :: 0 <= i < |s| ==> '0' <= s[i] <= '9'
  {
    if s == "" then 0 else 10 * Value(s[..|s| - 1]) + (s[|s| - 1] - '0') as nat
  }

  lemma {:induction false} DigitsRead(n: nat, width: nat)
    requires n < Pow10(width)
    ensures forall i :: 0 <= i < width ==> '0' <= Digits(n, width)[i] <= '9'
    ensures Value(Digits(n, width)) == n
  {
    if width > 0 {
      DigitsRead(n / 10, width - 1);
      assert Digits(n, width)[..width - 1] == Digits(n / 10, width - 1);
    }
  }

  lemma {:induction false} TenDigits()
    ensures Pow10(10) == 10_000_000_000
  {
    assert Pow10(2) == 100;
    assert Pow10(4) == 10_000;
    assert Pow10(6) == 1_000_000;
    assert Pow10(8) == 100_000_000;
  }

  /** A suffix is an underscore and ten digits that read as the counter. */
  lemma {:induction false} SuffixReads(n: nat)
    requires n <= 0x7fff_ffff
    ensures |Suffix(n)| == 11 && Suffix(n)[0] == '_'
    ensures forall i :: 1 <= i < 11 ==> '0' <= Suffix(n)[i] <= '9'
    ensures Value(Suffix(n)[1..]) == n
  {
    TenDigits();
    DigitsRead(n, 10);
    assert Suffix(n)[1..] == Digits(n, 10);
    assert forall i :: 1 <= i < 11 ==> Suffix(n)[i] == Digits(n, 10)[i - 1];
  }

  /** Suffixes sort in the order of the counter they print. */
  lemma {:induction false} SuffixOrder(a: nat, b: nat)
    requires a < b <= 0x7fff_ffff
    ensures LexLess(Suffix(a), Suffix(b))
    ensures Suffix(a) != Suffix(b)
  {
    TenDigits();
    var k := DigitsOrder(a, b, 10);
    var x, y := Digits(a, 10), Digits(b, 10);
    assert Suffix(a)[..k + 1] == "_" + x[..k] && Suffix(b)[..k + 1] == "_" + y[..k];
    assert Suffix(a)[k + 1] == x[k] && Suffix(b)[k + 1] == y[k];
  }
}
