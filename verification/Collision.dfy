/** Picking a free name for finished data: `splitExt` and `resolveCollision` of src/utils/complete.ts. */
module Collision {
  import opened Options

  // --- Strings ----------------------------------------------------------------

  /** The white space `String.prototype.trim` strips. */
  predicate IsSpace(c: char) {
    c in "\t\n\r \U{0B}\U{0C}\U{A0}\U{1680}\U{2028}\U{2029}\U{202F}\U{205F}\U{3000}\U{FEFF}"
    || '\U{2000}' <= c <= '\U{200A}'
  }

  function TrimLeft(s: string): string {
    if s != "" && IsSpace(s[0]) then TrimLeft(s[1..]) else s
  }

  function TrimRight(s: string): string {
    if s != "" && IsSpace(s[|s| - 1]) then TrimRight(s[..|s| - 1]) else s
  }

  function Trim(s: string): string {
    TrimLeft(TrimRight(s))
  }

  /** `replace(/\/+$/, "")`. */
  function TrimSlashes(s: string): string {
    if s != "" && s[|s| - 1] == '/' then TrimSlashes(s[..|s| - 1]) else s
  }

  const DIGITS := "0123456789"

  /** A number in a template literal. */
  function Decimal(n: nat): string {
    if n < 10 then [DIGITS[n]] else Decimal(n / 10) + [DIGITS[n % 10]]
  }

  // --- Names ------------------------------------------------------------------

  predicate IsLetter(c: char) {
    'A' <= c <= 'Z' || 'a' <= c <= 'z'
  }

  function LastDot(s: string): int {
    if s == "" then -1 else if s[|s| - 1] == '.' then |s| - 1 else LastDot(s[..|s| - 1])
  }

  predicate IsExt(ext: string) {
    2 <= |ext| <= 5 && forall i :: 0 <= i < |ext| ==> IsLetter(ext[i])
  }

  /** Stem and extension; only a dot with two to five letters after it, not in front, starts an extension. */
  function SplitExt(name: string): (string, string) {
    LastDotInRange(name);
    var idx := LastDot(name);
    if idx > 0 && IsExt(name[idx + 1..]) then (name[..idx], name[idx + 1..]) else (name, "")
  }

  lemma {:induction false} LastDotInRange(s: string)
    ensures -1 <= LastDot(s) < |s|
    ensures LastDot(s) >= 0 ==> s[LastDot(s)] == '.'
    ensures forall i :: LastDot(s) < i < |s| ==> s[i] != '.'
  {
    if s != "" && s[|s| - 1] != '.' { LastDotInRange(s[..|s| - 1]); }
  }

  function Candidate(stem: string, ext: string, n: nat): string {
    if ext != "" then stem + " (" + Decimal(n) + ")." + ext else stem + " (" + Decimal(n) + ")"
  }

  datatype Policy = Error | AutoRename

  datatype Outcome = Target(path: string) | Exists(path: string)

  const LIMIT := 1000

  /** The name tried at attempt `n`: the plain one first, then the numbered ones. */
  function Attempt(name: string, n: nat): string {
    if n == 0 then name
    else
      var (stem, ext) := SplitExt(name);
      Candidate(stem, ext, n)
  }

  /** How many names are tried before giving up. */
  function Tries(policy: Policy): nat {
    if policy.Error? then 1 else LIMIT
  }

  ghost predicate Taken(clean: string, siblingsLower: seq<string>, count: nat, lower: string -> string) {
    forall m :: 0 <= m < count ==> lower(Attempt(clean, m)) in siblingsLower
  }

  /** Attempt `n` is the first free one. */
  ghost predicate FirstFree(clean: string, siblingsLower: seq<string>, n: nat, lower: string -> string) {
    lower(Attempt(clean, n)) !in siblingsLower && Taken(clean, siblingsLower, n, lower)
  }

  /** The first free attempt was taken, or none of them is free. */
  ghost predicate Resolves(
    dstDir: string, name: string, siblingsLower: seq<string>, policy: Policy, lower: string -> string, r: Outcome
  ) {
    var dir, clean := TrimSlashes(Trim(dstDir)), Trim(name);
    match r
    case Target(path) =>
      exists n: nat :: n < Tries(policy) && FirstFree(clean, siblingsLower, n, lower) && path == dir + "/" + Attempt(clean, n)
    case Exists(path) => path == dir + "/" + clean && Taken(clean, siblingsLower, Tries(policy), lower)
  }

  lemma AttemptIsCandidate(clean: string, n: nat)
    requires n > 0
    ensures Attempt(clean, n) == Candidate(SplitExt(clean).0, SplitExt(clean).1, n)
  {}

  method ResolveCollision(
    dstDir: string, name: string, siblingsLower: seq<string>, policy: Policy, lower: string -> string
  ) returns (r: Outcome)
    ensures Resolves(dstDir, name, siblingsLower, policy, lower, r)
  {
    var dir, clean := TrimSlashes(Trim(dstDir)), Trim(name);
    if lower(clean) !in siblingsLower {
      assert FirstFree(clean, siblingsLower, 0, lower);
      return Target(dir + "/" + clean);
    }
    if policy.Error? {
      return Exists(dir + "/" + clean);
    }
    var found := TryNumbered(clean, siblingsLower, lower);
    if found.Some? {
      AttemptIsCandidate(clean, found.value);
      return Target(dir + "/" + Candidate(SplitExt(clean).0, SplitExt(clean).1, found.value));
    }
    return Exists(dir + "/" + clean);
  }

  /** The loop over the numbered names: the first free number, if any. */
  method TryNumbered(clean: string, siblingsLower: seq<string>, lower: string -> string) returns (found: Option<nat>)
    requires lower(clean) in siblingsLower
    ensures match found
      case Some(n) => 1 <= n < LIMIT && FirstFree(clean, siblingsLower, n, lower)
      case None => Taken(clean, siblingsLower, LIMIT, lower)
  {
    var (stem, ext) := SplitExt(clean);
    var n := 1;
    while n < LIMIT
      invariant 1 <= n <= LIMIT
      invariant Taken(clean, siblingsLower, n, lower)
    {
      AttemptIsCandidate(clean, n);
      if lower(Candidate(stem, ext, n)) !in siblingsLower {
        return Some(n);
      }
      n := n + 1;
    }
    return None;
  }

  // --- The extension is kept --------------------------------------------------

  lemma {:induction false} LastDotIs(s: string, i: nat)
    requires i < |s| && s[i] == '.' && forall j :: i < j < |s| ==> s[j] != '.'
    ensures LastDot(s) == i
  {
    if i < |s| - 1 { LastDotIs(s[..|s| - 1], i); }
  }

  /** Every name tried has the extension of the name asked for. */
  lemma AttemptKeepsExtension(name: string, n: nat)
    ensures SplitExt(Attempt(name, n)).1 == SplitExt(name).1
  {
    if n > 0 {
      var (stem, ext) := SplitExt(name);
      var name' := Attempt(name, n);
      LastDotInRange(name');
      if ext != "" {
        var at := |stem + " (" + Decimal(n) + ")"|;
        assert name'[at] == '.' && name'[at + 1..] == ext;
        LastDotIs(name', at);
      } else {
        assert name'[|name'| - 1] == ')';
        assert !IsLetter(')');
      }
    }
  }

  // --- A thousand different names ---------------------------------------------

  lemma DecimalBounds(n: nat)
    ensures Decimal(n) != ""
  {}

  lemma {:induction false} DecimalInjective(m: nat, n: nat)
    requires Decimal(m) == Decimal(n)
    ensures m == n
  {
    var a, b := Decimal(m), Decimal(n);
    DecimalBounds(m / 10);
    DecimalBounds(n / 10);
    assert a[|a| - 1] == DIGITS[m % 10] && b[|b| - 1] == DIGITS[n % 10];
    DigitsDiffer(m % 10, n % 10);
    if m >= 10 {
      assert |a| >= 2 && n >= 10;
      assert a[..|a| - 1] == Decimal(m / 10) && b[..|b| - 1] == Decimal(n / 10);
      DecimalInjective(m / 10, n / 10);
    }
  }

  lemma DigitsDiffer(a: nat, b: nat)
    requires a < 10 && b < 10 && DIGITS[a] == DIGITS[b]
    ensures a == b
  {}

  /** `n` in parentheses behind a space, between two strings. */
  function Wrap(front: string, n: nat, back: string): string {
    front + " (" + Decimal(n) + ")" + back
  }

  /**
   What `toLowerCase` is relied on for: lengths add up, and a number in parentheses is neither changed nor does it let
   what stands in front of it change what stands behind it. Unicode's rules, the final sigma included, comply.
   */
  ghost predicate IsLowering(lower: string -> string) {
    && (forall a, b :: |lower(a + b)| == |lower(a)| + |lower(b)|)
    && (forall a, n: nat, b :: lower(Wrap(a, n, b)) == lower(a + " (") + Decimal(n) + lower(")" + b))
  }

  function AsciiLower(s: string): string {
    seq(|s|, i requires 0 <= i < |s| => if 'A' <= s[i] <= 'Z' then s[i] - 'A' + 'a' else s[i])
  }

  lemma {:induction false} DecimalIsDigits(n: nat, i: nat)
    requires i < |Decimal(n)|
    ensures '0' <= Decimal(n)[i] <= '9'
  {
    if n >= 10 && i < |Decimal(n)| - 1 { DecimalIsDigits(n / 10, i); }
  }

  lemma AsciiLowerConcat(a: string, b: string)
    ensures AsciiLower(a + b) == AsciiLower(a) + AsciiLower(b)
  {}

  /** Lowering ASCII letters is one such. */
  lemma {:induction false} AsciiIsLowering()
    ensures IsLowering(AsciiLower)
  {
    forall a, n: nat, b
      ensures AsciiLower(Wrap(a, n, b)) == AsciiLower(a + " (") + Decimal(n) + AsciiLower(")" + b)
    {
      var d := Decimal(n);
      forall i | 0 <= i < |d| ensures AsciiLower(d)[i] == d[i] { DecimalIsDigits(n, i); }
      assert AsciiLower(d) == d;
      AsciiLowerConcat(a + " (", d);
      AsciiLowerConcat(a + " (" + d, ")" + b);
      assert Wrap(a, n, b) == (a + " (" + d) + (")" + b);
    }
  }

  function Suffix(ext: string): string {
    if ext != "" then "." + ext else ""
  }

  lemma CandidateIsWrap(stem: string, ext: string, n: nat)
    ensures Candidate(stem, ext, n) == Wrap(stem, n, Suffix(ext))
  {}

  /** No two attempts come out the same, even lowered. */
  lemma AttemptsDiffer(name: string, m: nat, n: nat, lower: string -> string)
    requires IsLowering(lower) && lower(Attempt(name, m)) == lower(Attempt(name, n))
    ensures m == n
  {
    var (stem, ext) := SplitExt(name);
    if m > 0 && n > 0 {
      NumberedDiffer(stem, ext, m, n, lower);
    } else if m > 0 {
      NumberedIsLonger(name, m, lower);
    } else if n > 0 {
      NumberedIsLonger(name, n, lower);
    }
  }

  lemma NumberedDiffer(stem: string, ext: string, m: nat, n: nat, lower: string -> string)
    requires IsLowering(lower) && lower(Candidate(stem, ext, m)) == lower(Candidate(stem, ext, n))
    ensures m == n
  {
    CandidateIsWrap(stem, ext, m);
    CandidateIsWrap(stem, ext, n);
    var front, back := lower(stem + " ("), lower(")" + Suffix(ext));
    var a := lower(Candidate(stem, ext, m));
    assert a == front + Decimal(m) + back && a == front + Decimal(n) + back;
    assert a[|front|..|a| - |back|] == Decimal(m);
    assert a[|front|..|a| - |back|] == Decimal(n);
    DecimalInjective(m, n);
  }

  /** A numbered name is longer than the plain one, even lowered. */
  lemma NumberedIsLonger(name: string, n: nat, lower: string -> string)
    requires IsLowering(lower) && n > 0
    ensures |lower(Attempt(name, n))| > |lower(name)|
  {
    var (stem, ext) := SplitExt(name);
    StemAndSuffix(name);
    AttemptIsCandidate(name, n);
    CandidateIsWrap(stem, ext, n);
    WrapIsLonger(stem, n, Suffix(ext), lower);
  }

  lemma StemAndSuffix(name: string)
    ensures name == SplitExt(name).0 + Suffix(SplitExt(name).1)
  {
    LastDotInRange(name);
  }

  lemma WrapIsLonger(front: string, n: nat, back: string, lower: string -> string)
    requires IsLowering(lower)
    ensures |lower(Wrap(front, n, back))| > |lower(front + back)|
  {
    assert |lower(front + " (")| == |lower(front)| + |lower(" (")|;
    assert |lower(")" + back)| == |lower(")")| + |lower(back)|;
    DecimalBounds(n);
  }

  /** The first `count` names tried, lowered. */
  function Tried(name: string, count: nat, lower: string -> string): seq<string> {
    seq(count, n requires 0 <= n => lower(Attempt(name, n)))
  }

  lemma TriedDiffer(name: string, count: nat, lower: string -> string)
    requires IsLowering(lower)
    ensures forall m, n :: 0 <= m < n < count ==> Tried(name, count, lower)[m] != Tried(name, count, lower)[n]
  {
    forall m, n | 0 <= m < n < count ensures Tried(name, count, lower)[m] != Tried(name, count, lower)[n] {
      if lower(Attempt(name, m)) == lower(Attempt(name, n)) { AttemptsDiffer(name, m, n, lower); }
    }
  }

  /** A list without repetition inside a set is no longer than the set is large. */
  lemma {:induction false} DistinctFit<T>(list: seq<T>, all: set<T>)
    requires forall i :: 0 <= i < |list| ==> list[i] in all
    requires forall i, j :: 0 <= i < j < |list| ==> list[i] != list[j]
    ensures |list| <= |all|
  {
    if list == [] {
    } else {
      var init, last := list[..|list| - 1], list[|list| - 1];
      DistinctFit(init, all - {last});
    }
  }

  /** If all thousand names are taken, there are at least a thousand different siblings. */
  lemma Pigeonhole(name: string, siblingsLower: seq<string>, lower: string -> string)
    requires IsLowering(lower) && Taken(name, siblingsLower, LIMIT, lower)
    ensures |set s | s in siblingsLower| >= LIMIT
  {
    TriedDiffer(name, LIMIT, lower);
    DistinctFit(Tried(name, LIMIT, lower), set s | s in siblingsLower);
  }

  /**
   Renaming: the name found is free, keeps the extension, and is found whenever there are fewer than a thousand
   different siblings. Without renaming the plain name is used exactly if it is free; either way a free name is kept.
   */
  lemma ResolvedIsFree(
    dstDir: string, name: string, siblingsLower: seq<string>, policy: Policy, lower: string -> string, r: Outcome)
    requires IsLowering(lower) && Resolves(dstDir, name, siblingsLower, policy, lower, r)
    ensures r.Target? ==> exists final ::
      && r.path == TrimSlashes(Trim(dstDir)) + "/" + final
      && lower(final) !in siblingsLower
      && SplitExt(final).1 == SplitExt(Trim(name)).1
    ensures policy.AutoRename? && |set s | s in siblingsLower| < LIMIT ==> r.Target?
    ensures policy.Error? ==> (r.Target? <==> lower(Trim(name)) !in siblingsLower)
    ensures lower(Trim(name)) !in siblingsLower ==> r == Target(TrimSlashes(Trim(dstDir)) + "/" + Trim(name))
  {
    var clean := Trim(name);
    assert Attempt(clean, 0) == clean;
    if r.Target? {
      var n: nat :| n < Tries(policy) && FirstFree(clean, siblingsLower, n, lower)
                    && r.path == TrimSlashes(Trim(dstDir)) + "/" + Attempt(clean, n);
      AttemptKeepsExtension(clean, n);
    } else if policy.AutoRename? {
      Pigeonhole(clean, siblingsLower, lower);
    }
  }
}
