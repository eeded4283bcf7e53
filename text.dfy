/** String primitives shared by the report parser, the chat sectioner and the
    display rules: JavaScript's whitespace class (the one `\s` and
    `String.prototype.trim` use), trimming, substring search, ASCII case
    mapping, splitting on a separator and bracket removal. */
module Text {

  /** The ASCII part of JavaScript's whitespace class (the one matched by `\s`
      and removed by `trim`): space, and tab through carriage return
      (U+0009 to U+000D). */
  predicate IsSpace(c: char) {
    c == ' ' || ('\t' <= c <= '\r')
  }

  predicate IsBlank(s: string) {
    forall i :: 0 <= i < |s| ==> IsSpace(s[i])
  }

  /** No whitespace at either end: what `trim` leaves behind. */
  predicate IsTrimmed(s: string) {
    s == [] || (!IsSpace(s[0]) && !IsSpace(s[|s| - 1]))
  }

  /** `trimStart`: drops the longest whitespace prefix. */
  function TrimStart(s: string): (r: string)
    ensures |r| <= |s| && r == s[|s| - |r|..]
    ensures IsBlank(s[..|s| - |r|])
    ensures r == [] || !IsSpace(r[0])
    decreases |s|
  {
    if |s| > 0 && IsSpace(s[0]) then TrimStart(s[1..]) else s
  }

  /** `trimEnd`: drops the longest whitespace suffix. */
  function TrimEnd(s: string): (r: string)
    ensures |r| <= |s| && r == s[..|r|]
    ensures IsBlank(s[|r|..])
    ensures r == [] || !IsSpace(r[|r| - 1])
    decreases |s|
  {
    if |s| > 0 && IsSpace(s[|s| - 1]) then
      var r := TrimEnd(s[..|s| - 1]);
      assert s[|r|..] == s[..|s| - 1][|r|..] + [s[|s| - 1]];
      BlankConcat(s[..|s| - 1][|r|..], [s[|s| - 1]]);
      r
    else s
  }

  /** `trim`: the longest whitespace prefix and suffix removed. */
  function Trim(s: string): (r: string)
    ensures IsTrimmed(r) && |r| <= |s|
  {
    TrimEnd(TrimStart(s))
  }

  /** What `trim` removes is whitespace on either side of its result. */
  lemma TrimParts(s: string) returns (i: nat)
    ensures i + |Trim(s)| <= |s| && s[i..i + |Trim(s)|] == Trim(s)
    ensures IsBlank(s[..i]) && IsBlank(s[i + |Trim(s)|..])
  {
    var a := TrimStart(s);
    var r := TrimEnd(a);
    i := |s| - |a|;
    SliceOfSuffix(s, i, |r|);
  }

  lemma SliceRight(h: string, t: string, i: nat, j: nat)
    requires i <= j <= |t|
    ensures (h + t)[|h| + i..|h| + j] == t[i..j]
  {
  }

  /** An upper-case name such as `VERDICT` or `TECHNICAL_FLAGS`. */
  predicate IsWord(s: string) {
    s != [] && forall i :: 0 <= i < |s| ==> 'A' <= s[i] <= 'Z' || s[i] == '_'
  }

  /** A word holds no bracket, mark or line break, and nothing to trim. */
  lemma WordShape(s: string)
    requires IsWord(s)
    ensures '[' !in s && ']' !in s && '#' !in s && '\n' !in s
    ensures IsTrimmed(s) && Trim(s) == s
  {
    TrimOfTrimmed(s);
  }

  /** The middle of a concatenation occurs right after the head. */
  lemma EmbedsMiddle(a: string, b: string, c: string)
    ensures OccursAt(a + b + c, b, |a|)
    ensures (a + b + c)[|a|..|a + b + c| - |c|] == b
  {
    assert a + b + c == a + (b + c);
    SliceRight(a, b + c, 0, |b|);
    assert (b + c)[0..|b|] == b;
  }

  lemma SliceOfSuffix(s: string, i: nat, j: nat)
    requires i + j <= |s|
    ensures s[i..][..j] == s[i..i + j] && s[i..][j..] == s[i + j..]
  {
  }

  /** A string is the blank run `trim` drops in front, its result, and the
      blank run it drops behind. */
  lemma TrimSplit(s: string) returns (lead: string, tail: string)
    ensures s == lead + Trim(s) + tail && IsBlank(lead) && IsBlank(tail)
  {
    var i := TrimParts(s);
    var r := Trim(s);
    lead, tail := s[..i], s[i + |r|..];
    SliceThree(s, i, i + |r|);
  }

  lemma SliceThree(s: string, i: nat, j: nat)
    requires i <= j <= |s|
    ensures s == s[..i] + s[i..j] + s[j..]
  {
  }

  lemma SliceChars(s: string, i: nat, j: nat)
    requires i <= j <= |s|
    ensures forall c :: c in s[i..j] ==> c in s
  {
    forall c | c in s[i..j] ensures c in s {
      var k :| 0 <= k < j - i && s[i..j][k] == c;
      assert s[i + k] == c;
    }
  }

  lemma TrimKeepsChars(s: string)
    ensures forall c :: c in Trim(s) ==> c in s
  {
    var i := TrimParts(s);
    SliceChars(s, i, i + |Trim(s)|);
  }

  lemma BlankConcat(a: string, b: string)
    requires IsBlank(a) && IsBlank(b)
    ensures IsBlank(a + b)
  {
  }

  lemma {:induction false} TrimStartBlankPrefix(a: string, x: string)
    requires IsBlank(a)
    ensures TrimStart(a + x) == TrimStart(x)
    decreases |a|
  {
    if a != [] {
      var y := a + x;
      assert y[0] == a[0];
      assert y[1..] == a[1..] + x;
      assert TrimStart(y) == TrimStart(y[1..]);
      TrimStartBlankPrefix(a[1..], x);
    } else {
      assert a + x == x;
    }
  }

  lemma {:induction false} TrimEndBlankSuffix(x: string, b: string)
    requires IsBlank(b)
    ensures TrimEnd(x + b) == TrimEnd(x)
    decreases |b|
  {
    if b != [] {
      var y := x + b;
      assert y[|y| - 1] == b[|b| - 1];
      assert y[..|y| - 1] == x + b[..|b| - 1];
      assert TrimEnd(y) == TrimEnd(y[..|y| - 1]);
      TrimEndBlankSuffix(x, b[..|b| - 1]);
    } else {
      assert x + b == x;
    }
  }

  /** Trimming the start of a string that is not blank leaves any suffix alone. */
  lemma {:induction false} TrimStartKeepsSuffix(m: string, b: string)
    requires !IsBlank(m)
    ensures TrimStart(m + b) == TrimStart(m) + b
    decreases |m|
  {
    if IsSpace(m[0]) {
      assert (m + b)[1..] == m[1..] + b;
      TrimStartKeepsSuffix(m[1..], b);
    }
  }

  /** Trimming the end of a string that is not blank leaves any prefix alone. */
  lemma {:induction false} TrimEndKeepsPrefix(a: string, m: string)
    requires !IsBlank(m)
    ensures TrimEnd(a + m) == a + TrimEnd(m)
    decreases |m|
  {
    if IsSpace(m[|m| - 1]) {
      assert (a + m)[..|a + m| - 1] == a + m[..|m| - 1];
      TrimEndKeepsPrefix(a, m[..|m| - 1]);
    }
  }

  lemma TrimOfBlank(s: string)
    requires IsBlank(s)
    ensures Trim(s) == []
  {
    assert s + [] == s;
    TrimStartBlankPrefix(s, []);
  }

  /** Whitespace around a string does not change what `trim` returns. */
  lemma TrimSurrounded(a: string, m: string, b: string)
    requires IsBlank(a) && IsBlank(b)
    ensures Trim(a + m + b) == Trim(m)
  {
    assert a + m + b == a + (m + b);
    TrimStartBlankPrefix(a, m + b);
    if IsBlank(m) {
      BlankConcat(m, b);
      TrimOfBlank(m + b);
      TrimOfBlank(m);
    } else {
      TrimStartKeepsSuffix(m, b);
      TrimEndBlankSuffix(TrimStart(m), b);
    }
  }

  lemma TrimOfTrimmed(s: string)
    requires IsTrimmed(s)
    ensures Trim(s) == s
  {
  }

  /** `trim` is determined by its contract: a trimmed core between two blank ends. */
  lemma TrimUnique(a: string, m: string, b: string)
    requires IsBlank(a) && IsBlank(b) && IsTrimmed(m)
    ensures Trim(a + m + b) == m
  {
    TrimSurrounded(a, m, b);
  }

  lemma TrimBlankHead(a: string, m: string)
    requires IsBlank(a) && IsTrimmed(m)
    ensures Trim(a + m) == m
  {
    assert a + m + [] == a + m;
    TrimUnique(a, m, []);
  }

  lemma TrimEmptyIffBlank(s: string)
    ensures Trim(s) == [] <==> IsBlank(s)
  {
    if IsBlank(s) {
      TrimOfBlank(s);
    }
    var r := Trim(s);
    if r == [] {
      var i := TrimParts(s);
      assert s == s[..i] + s[i..];
      BlankConcat(s[..i], s[i..]);
    }
  }

  // ---------------------------------------------------------------------
  // Substring search

  predicate OccursAt(s: string, pat: string, k: nat) {
    k + |pat| <= |s| && s[k..k + |pat|] == pat
  }

  predicate Occurs(s: string, pat: string) {
    exists k: nat :: k <= |s| && OccursAt(s, pat, k)
  }

  /** The first occurrence of `pat` at or after `from` (`indexOf(pat, from)`). */
  function IndexOfFrom(s: string, pat: string, from: nat): (r: Option<nat>)
    ensures r.Some? ==> from <= r.value && OccursAt(s, pat, r.value)
    ensures r.Some? ==> forall k: nat :: from <= k < r.value ==> !OccursAt(s, pat, k)
    ensures r.None? ==> forall k: nat :: from <= k ==> !OccursAt(s, pat, k)
    decreases |s| - from
  {
    if from + |pat| > |s| then None
    else if s[from..from + |pat|] == pat then Some(from)
    else IndexOfFrom(s, pat, from + 1)
  }

  /** The first occurrence of `pat` in `s`. */
  function IndexOf(s: string, pat: string): (r: Option<nat>)
    ensures r.Some? <==> Occurs(s, pat)
    ensures r.Some? ==> OccursAt(s, pat, r.value) && forall k: nat :: k < r.value ==> !OccursAt(s, pat, k)
  {
    IndexOfFrom(s, pat, 0)
  }

  /** `includes`. */
  function Contains(s: string, pat: string): (b: bool)
    ensures b <==> Occurs(s, pat)
  {
    IndexOf(s, pat).Some?
  }

  /** The first index at or after `from` holding `c`, or `|s|` if there is none. */
  function FindChar(s: string, c: char, from: nat): (r: nat)
    requires from <= |s|
    ensures from <= r <= |s|
    ensures r < |s| ==> s[r] == c
    ensures forall k :: from <= k < r ==> s[k] != c
    decreases |s| - from
  {
    if from == |s| then from
    else if s[from] == c then from
    else FindChar(s, c, from + 1)
  }

  /** An occurrence of a pattern whose first character is absent from `p`
      cannot start inside `p`: in `p + pat + q` the first one is right after `p`. */
  lemma IndexOfAfterFree(p: string, pat: string, q: string)
    requires pat != [] && pat[0] !in p
    ensures IndexOf(p + pat + q, pat) == Some(|p|)
  {
    var s := p + pat + q;
    assert s[|p|..|p| + |pat|] == pat;
    assert OccursAt(s, pat, |p|);
    forall k: nat | k < |p|
      ensures !OccursAt(s, pat, k)
    {
      assert s[k..k + |pat|][0] == p[k];
    }
  }

  /** Occurrences in `q` are occurrences in `p + q`, moved past the head. */
  lemma OccursShift(p: string, q: string, pat: string, k: nat)
    ensures OccursAt(p + q, pat, |p| + k) <==> OccursAt(q, pat, k)
  {
    if k + |pat| <= |q| {
      SliceRight(p, q, k, k + |pat|);
    }
  }

  /** When no occurrence starts inside the head `p`, the first occurrence in
      `p + q` is the first one of `q`, moved past the head. */
  lemma IndexOfPastHead(p: string, q: string, pat: string)
    requires forall k: nat :: k < |p| ==> !OccursAt(p + q, pat, k)
    ensures IndexOf(p + q, pat) == (if IndexOf(q, pat).Some? then Some(|p| + IndexOf(q, pat).value) else None)
  {
    var s := p + q;
    var r := IndexOf(s, pat);
    var t := IndexOf(q, pat);
    if t.Some? {
      OccursShift(p, q, pat, t.value);
      OccursShift(p, q, pat, r.value - |p|);
    } else {
      forall k: nat | k <= |s|
        ensures !OccursAt(s, pat, k)
      {
        if k >= |p| {
          OccursShift(p, q, pat, k - |p|);
        }
      }
    }
  }

  /** A first occurrence that ends inside `u` stays first however `u` is extended. */
  lemma IndexOfExtend(u: string, w: string, pat: string)
    requires IndexOf(u, pat).Some? && IndexOf(u, pat).value + |pat| <= |u|
    ensures IndexOf(u + w, pat) == IndexOf(u, pat)
  {
    var r := IndexOf(u, pat);
    var j := r.value;
    var s := u + w;
    assert s[j..j + |pat|] == u[j..j + |pat|];
    assert OccursAt(s, pat, j);
    forall k: nat | k < j
      ensures !OccursAt(s, pat, k)
    {
      assert !OccursAt(u, pat, k);
      assert s[k..k + |pat|] == u[k..k + |pat|];
    }
    var t := IndexOf(s, pat);
    assert t.Some? && t.value <= j;
  }

  /** Every occurrence of a pattern begins with the pattern's first character. */
  lemma OccursHasFirstChar(s: string, pat: string)
    requires pat != []
    ensures Occurs(s, pat) ==> pat[0] in s
  {
    if Occurs(s, pat) {
      var k: nat :| k <= |s| && OccursAt(s, pat, k);
      assert s[k..k + |pat|][0] == s[k];
    }
  }

  /** Searching for a character past a head finds it at the same offset. */
  lemma {:induction false} FindCharPastHead(p: string, q: string, c: char, k: nat)
    requires k <= |q|
    ensures FindChar(p + q, c, |p| + k) == |p| + FindChar(q, c, k)
    decreases |q| - k
  {
    if k < |q| {
      assert (p + q)[|p| + k] == q[k];
      if q[k] != c {
        FindCharPastHead(p, q, c, k + 1);
      }
    }
  }

  // ---------------------------------------------------------------------
  // Case mapping (ASCII letters only)

  function Upper(c: char): char {
    if 'a' <= c <= 'z' then (c as int - 32) as char else c
  }

  function Lower(c: char): char {
    if 'A' <= c <= 'Z' then (c as int + 32) as char else c
  }

  /** `toUpperCase`, restricted to ASCII letters. */
  function ToUpper(s: string): (r: string)
    ensures |r| == |s| && forall i :: 0 <= i < |s| ==> r[i] == Upper(s[i])
  {
    seq(|s|, i requires 0 <= i < |s| => Upper(s[i]))
  }

  /** `toLowerCase`, restricted to ASCII letters. */
  function ToLower(s: string): (r: string)
    ensures |r| == |s| && forall i :: 0 <= i < |s| ==> r[i] == Lower(s[i])
  {
    seq(|s|, i requires 0 <= i < |s| => Lower(s[i]))
  }

  /** `s` has the letters of `pat` at `k`, in either case. */
  predicate MatchesIgnoringCaseAt(s: string, pat: string, k: nat) {
    k + |pat| <= |s| && forall j :: 0 <= j < |pat| ==> Upper(s[k + j]) == Upper(pat[j])
  }

  predicate OccursIgnoringCase(s: string, pat: string) {
    exists k: nat :: k <= |s| && MatchesIgnoringCaseAt(s, pat, k)
  }

  /** Testing the upper-cased text for an upper-case pattern is a
      case-insensitive substring test. */
  lemma UpperSearchIgnoresCase(s: string, pat: string)
    requires ToUpper(pat) == pat
    ensures Contains(ToUpper(s), pat) <==> OccursIgnoringCase(s, pat)
  {
    var u := ToUpper(s);
    forall k: nat
      ensures OccursAt(u, pat, k) <==> MatchesIgnoringCaseAt(s, pat, k)
    {
      if k + |pat| <= |s| {
        if OccursAt(u, pat, k) {
          forall j | 0 <= j < |pat|
            ensures Upper(s[k + j]) == Upper(pat[j])
          {
            assert u[k..k + |pat|][j] == u[k + j];
            assert pat[j] == ToUpper(pat)[j];
          }
        }
        if MatchesIgnoringCaseAt(s, pat, k) {
          forall j | 0 <= j < |pat|
            ensures u[k..k + |pat|][j] == pat[j]
          {
            assert pat[j] == ToUpper(pat)[j];
          }
        }
      }
    }
    if OccursIgnoringCase(s, pat) {
      var k: nat :| MatchesIgnoringCaseAt(s, pat, k);
      assert OccursAt(u, pat, k);
    }
  }

  /** Testing the lower-cased text for a lower-case pattern is a
      case-insensitive substring test. */
  lemma LowerSearchIgnoresCase(s: string, pat: string)
    requires ToLower(pat) == pat
    ensures Contains(ToLower(s), pat) <==> OccursIgnoringCase(s, pat)
  {
    var w := ToLower(s);
    forall k: nat
      ensures OccursAt(w, pat, k) <==> MatchesIgnoringCaseAt(s, pat, k)
    {
      if k + |pat| <= |s| {
        if OccursAt(w, pat, k) {
          forall j | 0 <= j < |pat|
            ensures Upper(s[k + j]) == Upper(pat[j])
          {
            assert w[k..k + |pat|][j] == w[k + j];
          }
        }
        if MatchesIgnoringCaseAt(s, pat, k) {
          forall j | 0 <= j < |pat|
            ensures w[k..k + |pat|][j] == pat[j]
          {
            assert pat[j] == ToLower(pat)[j];
            assert Lower(s[k + j]) == Lower(pat[j]);
          }
        }
      }
    }
    if OccursIgnoringCase(s, pat) {
      var k: nat :| MatchesIgnoringCaseAt(s, pat, k);
      assert OccursAt(w, pat, k);
    }
  }

  // ---------------------------------------------------------------------
  // Splitting and joining

  function Join(parts: seq<string>, sep: string): string
    decreases |parts|
  {
    if |parts| == 0 then []
    else if |parts| == 1 then parts[0]
    else parts[0] + sep + Join(parts[1..], sep)
  }

  /** `split(sep)` for a non-empty separator: the pieces between the
      occurrences found left to right. Joining them back with `sep` gives the
      text again, and no piece holds the separator. */
  function Split(s: string, sep: string): (parts: seq<string>)
    requires sep != []
    ensures |parts| >= 1
    ensures Join(parts, sep) == s
    ensures forall i :: 0 <= i < |parts| ==> !Occurs(parts[i], sep)
    decreases |s|
  {
    match IndexOf(s, sep)
    case None => [s]
    case Some(i) =>
      var head := s[..i];
      var rest := Split(s[i + |sep|..], sep);
      assert !Occurs(head, sep) by {
        forall k: nat | OccursAt(head, sep, k)
          ensures false
        {
          assert head[k..k + |sep|] == s[k..k + |sep|];
          assert OccursAt(s, sep, k);
        }
      }
      assert s == head + sep + s[i + |sep|..];
      [head] + rest
  }

  /** Splitting a text that holds no separator gives the text alone. */
  lemma SplitFree(s: string, sep: string)
    requires sep != [] && !Occurs(s, sep)
    ensures Split(s, sep) == [s]
  {
  }

  /** In `p + sep + q` with a first separator character absent from `p`, the
      first piece is `p` and the rest is the split of `q`. */
  lemma SplitAfterFree(p: string, sep: string, q: string)
    requires sep != [] && sep[0] !in p
    ensures Split(p + sep + q, sep) == [p] + Split(q, sep)
  {
    var s := p + sep + q;
    IndexOfAfterFree(p, sep, q);
    assert s[..|p|] == p;
    assert s[|p| + |sep|..] == q;
  }

  /** Each part preceded by the separator. */
  function Prefixed(parts: seq<string>, sep: string): string
    decreases |parts|
  {
    if parts == [] then [] else sep + parts[0] + Prefixed(parts[1..], sep)
  }

  /** Joining behind a head puts the separator before every further part. */
  lemma {:induction false} JoinAfterHead(head: string, parts: seq<string>, sep: string)
    requires parts != []
    ensures Join([head] + parts, sep) == head + Prefixed(parts, sep)
    decreases |parts|
  {
    var s := [head] + parts;
    assert s[1..] == parts;
    if |parts| == 1 {
      assert Prefixed(parts[1..], sep) == [];
      assert Join(parts, sep) == parts[0];
    } else {
      JoinAfterHead(parts[0], parts[1..], sep);
      assert [parts[0]] + parts[1..] == parts;
    }
  }

  /** Splitting undoes joining when no piece holds the separator's first
      character. */
  lemma {:induction false} SplitJoin(parts: seq<string>, sep: string)
    requires sep != [] && parts != []
    requires forall k :: 0 <= k < |parts| ==> sep[0] !in parts[k]
    ensures Split(Join(parts, sep), sep) == parts
    decreases |parts|
  {
    if |parts| == 1 {
      OccursHasFirstChar(parts[0], sep);
      SplitFree(parts[0], sep);
    } else {
      SplitJoin(parts[1..], sep);
      SplitAfterFree(parts[0], sep, Join(parts[1..], sep));
      assert [parts[0]] + parts[1..] == parts;
    }
  }

  // ---------------------------------------------------------------------
  // Bracket removal

  /** `replace(/\[|\]/g, '')`: every `[` and `]` removed, the rest kept in order. */
  function RemoveBrackets(s: string): (r: string)
    ensures '[' !in r && ']' !in r
    ensures forall c :: c in r <==> c in s && c != '[' && c != ']'
    ensures |r| <= |s|
  {
    if s == [] then []
    else
      var rest := RemoveBrackets(s[1..]);
      assert forall c :: c in s <==> c == s[0] || c in s[1..];
      if s[0] == '[' || s[0] == ']' then rest else [s[0]] + rest
  }

  lemma RemoveBracketsIdentity(s: string)
    requires '[' !in s && ']' !in s
    ensures RemoveBrackets(s) == s
  {
  }

  // ---------------------------------------------------------------------
  // JavaScript's `||` on strings, and bracketed names

  /** A string JavaScript treats as true: present and not empty. */
  predicate Truthy(s: Option<string>) {
    s.Some? && s.value != []
  }

  /** `a || b`: the first operand when it is truthy, else the second. */
  function Or(a: Option<string>, b: Option<string>): (r: Option<string>)
    ensures Truthy(r) <==> Truthy(a) || Truthy(b)
    ensures Truthy(a) ==> r == a
    ensures !Truthy(a) ==> r == b
  {
    if Truthy(a) then a else b
  }

  /** `a || b` with a string fallback `b`. */
  function OrElse(a: Option<string>, b: string): (r: string)
    ensures Truthy(a) ==> r == a.value
    ensures !Truthy(a) ==> r == b
  {
    Or(a, Some(b)).value
  }

  /** A name between square brackets, as in `[VERDICT]`. */
  function Bracketed(name: string): string {
    "[" + name + "]"
  }

  // ---------------------------------------------------------------------

  datatype Option<+T> = None | Some(value: T)
}
