/**
 * JavaScript string operations, stated on `seq<char>`.
 *
 * The parser and the routes use `trim`, `split`, `startsWith`, `includes`,
 * literal `replace`, and a handful of regular expressions. This module gives
 * each of them by its effect: white-space trimming with JavaScript's white
 * space set, splitting on one character, ASCII case folding for `/i`
 * patterns, left-to-right global replacement, and leftmost "literal then a
 * run of one character class" captures.
 */
module Text {
  import opened Wrappers

  /** JavaScript's WhiteSpace and LineTerminator characters: what `trim` removes and `\s` matches
      (tab, line feed, vertical tab, form feed, carriage return, space, U+00A0, U+1680,
      U+2000 to U+200A, U+2028, U+2029, U+202F, U+205F, U+3000 and U+FEFF). */
  predicate IsSpace(c: char) {
    || '\t' <= c <= '\r' || c == ' ' || c == '\U{00A0}' || c == '\U{1680}'
    || '\U{2000}' <= c <= '\U{200A}' || c == '\U{2028}' || c == '\U{2029}'
    || c == '\U{202F}' || c == '\U{205F}' || c == '\U{3000}' || c == '\U{FEFF}'
  }

  // ---------------------------------------------------------------- trimming

  /** The number of white-space characters `s` starts with. */
  function LeadingSpaces(s: string): (n: nat)
    ensures n <= |s|
    ensures n == |s| || !IsSpace(s[n])
  {
    if s != [] && IsSpace(s[0]) then 1 + LeadingSpaces(s[1..]) else 0
  }

  /** The number of white-space characters `s` ends with. */
  function TrailingSpaces(s: string): (n: nat)
    ensures n <= |s|
    ensures n == |s| || !IsSpace(s[|s| - n - 1])
  {
    if s != [] && IsSpace(s[|s| - 1]) then 1 + TrailingSpaces(s[..|s| - 1]) else 0
  }

  /** What the counts count is white space, all of it. */
  lemma {:induction false} LeadingSpacesAreSpaces(s: string)
    ensures forall i :: 0 <= i < LeadingSpaces(s) ==> IsSpace(s[i])
  {
    if s != [] && IsSpace(s[0]) {
      LeadingSpacesAreSpaces(s[1..]);
      forall i | 1 <= i < LeadingSpaces(s) ensures IsSpace(s[i]) {
        assert s[i] == s[1..][i - 1];
      }
    }
  }

  lemma {:induction false} TrailingSpacesAreSpaces(s: string)
    ensures forall i :: |s| - TrailingSpaces(s) <= i < |s| ==> IsSpace(s[i])
  {
    if s != [] && IsSpace(s[|s| - 1]) {
      TrailingSpacesAreSpaces(s[..|s| - 1]);
      forall i | |s| - TrailingSpaces(s) <= i < |s| - 1 ensures IsSpace(s[i]) {
        assert s[i] == s[..|s| - 1][i];
      }
    }
  }

  /** `s` without its leading white space. */
  function TrimStart(s: string): string {
    s[LeadingSpaces(s)..]
  }

  /** `s` without its trailing white space. */
  function TrimEnd(s: string): string {
    s[..|s| - TrailingSpaces(s)]
  }

  /** Neither the first nor the last character is white space. */
  predicate NoEdgeSpace(s: string) {
    s == [] || (!IsSpace(s[0]) && !IsSpace(s[|s| - 1]))
  }

  /** JavaScript's `String.prototype.trim`. */
  function Trim(s: string): (r: string)
    ensures NoEdgeSpace(r)
    ensures |r| <= |s|
  {
    TrimEnd(TrimStart(s))
  }

  /** The trimmed string is the infix of `s` between its leading and its trailing
      white space, and everything cut off is white space. */
  lemma TrimInfix(s: string)
    ensures LeadingSpaces(s) + |Trim(s)| <= |s|
    ensures Trim(s) == s[LeadingSpaces(s)..LeadingSpaces(s) + |Trim(s)|]
    ensures forall i :: 0 <= i < LeadingSpaces(s) ==> IsSpace(s[i])
    ensures forall i :: LeadingSpaces(s) + |Trim(s)| <= i < |s| ==> IsSpace(s[i])
  {
    TrimSlice(s);
    LeadingSpacesAreSpaces(s);
    TrimTail(s);
  }

  lemma TrimSlice(s: string)
    ensures LeadingSpaces(s) + |Trim(s)| <= |s|
    ensures Trim(s) == s[LeadingSpaces(s)..LeadingSpaces(s) + |Trim(s)|]
  {
    var k := LeadingSpaces(s);
    var t := s[k..];
    assert Trim(s) == t[..|t| - TrailingSpaces(t)];
  }

  lemma TrimTail(s: string)
    ensures forall i :: LeadingSpaces(s) + |Trim(s)| <= i < |s| ==> IsSpace(s[i])
  {
    var k := LeadingSpaces(s);
    var t := s[k..];
    TrailingSpacesAreSpaces(t);
    forall i | k + |Trim(s)| <= i < |s| ensures IsSpace(s[i]) {
      assert s[i] == t[i - k];
    }
  }

  lemma TrimStartNoop(s: string)
    requires s == [] || !IsSpace(s[0])
    ensures TrimStart(s) == s
  {
  }

  lemma TrimEndNoop(s: string)
    requires s == [] || !IsSpace(s[|s| - 1])
    ensures TrimEnd(s) == s
  {
  }

  /** Trimming a string without edge white space changes nothing; in particular trimming is idempotent. */
  lemma TrimNoop(s: string)
    requires NoEdgeSpace(s)
    ensures Trim(s) == s
  {
    TrimStartNoop(s);
    TrimEndNoop(s);
  }

  /** Every character of the trimmed string occurs in the original. */
  lemma TrimChars(s: string)
    ensures forall c :: c in Trim(s) ==> c in s
  {
    var off := LeadingSpaces(s);
    var r := Trim(s);
    TrimInfix(s);
    forall c | c in r ensures c in s {
      var k :| 0 <= k < |r| && r[k] == c;
      assert s[off + k] == c;
    }
  }

  /** Trimming keeps every character that is not white space. */
  lemma TrimKeeps(s: string, c: char)
    requires c in s && !IsSpace(c)
    ensures c in Trim(s)
  {
    TrimInfix(s);
    var k := LeadingSpaces(s);
    var i :| 0 <= i < |s| && s[i] == c;
    assert Trim(s)[i - k] == c;
  }

  // ------------------------------------------------------- prefix and search

  predicate StartsWith(s: string, p: string) {
    |p| <= |s| && s[..|p|] == p
  }

  predicate EndsWith(s: string, p: string) {
    |p| <= |s| && s[|s| - |p|..] == p
  }

  /** `p` occurs in `s` at position `k`. */
  predicate OccursAt(s: string, p: string, k: nat) {
    k + |p| <= |s| && s[k..k + |p|] == p
  }

  /** The characters of a suffix, read from the end of the string. */
  lemma EndsWithChar(s: string, p: string, k: nat)
    ensures EndsWith(s, p) && k < |p| ==> s[|s| - |p| + k] == p[k]
  {
    if EndsWith(s, p) && k < |p| {
      assert s[|s| - |p|..][k] == p[k];
    }
  }

  /** Two suffixes that differ `d` characters from their ends cannot both end `s`. */
  lemma EndsWithClash(s: string, p: string, q: string, d: nat)
    requires d < |p| && d < |q| && p[|p| - 1 - d] != q[|q| - 1 - d]
    ensures !(EndsWith(s, p) && EndsWith(s, q))
  {
    EndsWithChar(s, p, |p| - 1 - d);
    EndsWithChar(s, q, |q| - 1 - d);
  }

  /** The leftmost occurrence of `p` in `s` at or after `from` (`indexOf`). */
  function IndexOfFrom(s: string, p: string, from: nat): (r: Option<nat>)
    decreases |s| - from
    ensures r.Some? ==> from <= r.value && OccursAt(s, p, r.value)
    ensures r.Some? ==> forall k :: from <= k < r.value ==> !OccursAt(s, p, k)
    ensures r.None? ==> forall k :: from <= k ==> !OccursAt(s, p, k)
  {
    if from + |p| > |s| then None
    else if OccursAt(s, p, from) then Some(from)
    else IndexOfFrom(s, p, from + 1)
  }

  function IndexOf(s: string, p: string): Option<nat> {
    IndexOfFrom(s, p, 0)
  }

  /** JavaScript's `includes` for a literal, or `test` of a regex without special characters. */
  predicate Contains(s: string, p: string) {
    IndexOf(s, p).Some?
  }

  lemma ContainsIff(s: string, p: string)
    ensures Contains(s, p) <==> exists k :: OccursAt(s, p, k)
  {
  }

  /** `s.replace(p, "")` for a string pattern: the first occurrence is removed. */
  function RemoveFirst(s: string, p: string): (r: string)
    ensures IndexOf(s, p).None? ==> r == s
    ensures IndexOf(s, p).Some? ==> |r| == |s| - |p|
  {
    match IndexOf(s, p)
    case None => s
    case Some(i) => s[..i] + s[i + |p|..]
  }

  /** `s.replace(/p/g, rep)` for a literal `p`: leftmost non-overlapping occurrences, left to right. */
  function ReplaceAll(s: string, p: string, rep: string): string
    requires p != []
    decreases |s|
  {
    if |s| < |p| then s
    else if s[..|p|] == p then rep + ReplaceAll(s[|p|..], p, rep)
    else [s[0]] + ReplaceAll(s[1..], p, rep)
  }

  /** Text in which the pattern's first character never occurs is left alone. */
  lemma {:induction false} ReplaceAllAbsent(s: string, p: string, rep: string)
    requires p != [] && p[0] !in s
    ensures ReplaceAll(s, p, rep) == s
    decreases |s|
  {
    if |s| >= |p| {
      assert s[..|p|][0] == s[0];
      assert p[0] !in s[1..] by {
        forall x | x in s[1..] ensures x in s { }
      }
      ReplaceAllAbsent(s[1..], p, rep);
    }
  }

  /** A prefix in which the pattern's first character never occurs is copied through. */
  lemma {:induction false} ReplaceAllSkip(a: string, b: string, p: string, rep: string)
    requires p != [] && p[0] !in a
    ensures ReplaceAll(a + b, p, rep) == a + ReplaceAll(b, p, rep)
    decreases |a|
  {
    if a == [] {
      assert a + b == b;
    } else if |a + b| < |p| {
      assert ReplaceAll(b, p, rep) == b;
    } else {
      var t := a + b;
      assert t[..|p|][0] == a[0] != p[0];
      assert t[1..] == a[1..] + b;
      assert p[0] !in a[1..] by {
        forall x | x in a[1..] ensures x in a { }
      }
      ReplaceAllSkip(a[1..], b, p, rep);
      calc {
        ReplaceAll(t, p, rep);
        [a[0]] + ReplaceAll(a[1..] + b, p, rep);
        [a[0]] + (a[1..] + ReplaceAll(b, p, rep));
        { assert [a[0]] + a[1..] == a; }
        a + ReplaceAll(b, p, rep);
      }
    }
  }

  /** A replacement only brings in characters of the replacement text. */
  lemma {:induction false} ReplaceAllChars(s: string, p: string, rep: string)
    requires p != []
    ensures forall c :: c in ReplaceAll(s, p, rep) ==> c in s || c in rep
    decreases |s|
  {
    if |s| >= |p| {
      if s[..|p|] == p {
        ReplaceAllChars(s[|p|..], p, rep);
      } else {
        ReplaceAllChars(s[1..], p, rep);
      }
    }
  }

  // ----------------------------------------------------- character classes

  /** `s.replace(/[...]/g, "")`: every character `bad` holds of removed. */
  function RemoveChars(s: string, bad: char -> bool): (r: string)
    ensures forall c :: c in r ==> !bad(c)
    ensures |r| <= |s|
  {
    if s == [] then []
    else (if bad(s[0]) then [] else [s[0]]) + RemoveChars(s[1..], bad)
  }

  /** Removing characters keeps only characters of the input. */
  lemma {:induction false} RemoveCharsChars(s: string, bad: char -> bool)
    ensures forall c :: c in RemoveChars(s, bad) ==> c in s
  {
    if s != [] {
      RemoveCharsChars(s[1..], bad);
    }
  }

  lemma RemoveCharsNoop(s: string, bad: char -> bool)
    requires forall c :: c in s ==> !bad(c)
    ensures RemoveChars(s, bad) == s
  {
    if s != [] {
      RemoveCharsNoop(s[1..], bad);
    }
  }

  /** Filtering distributes over concatenation. */
  lemma {:induction false} RemoveCharsAppend(a: string, b: string, bad: char -> bool)
    ensures RemoveChars(a + b, bad) == RemoveChars(a, bad) + RemoveChars(b, bad)
  {
    if a == [] {
      assert a + b == b;
    } else {
      assert (a + b)[1..] == a[1..] + b;
      RemoveCharsAppend(a[1..], b, bad);
    }
  }

  /** Filtering text in which only the character `m` between `a` and `b` is removed. */
  lemma RemoveCharsOne(a: string, m: char, b: string, bad: char -> bool)
    requires bad(m)
    requires forall c :: c in a ==> !bad(c)
    requires forall c :: c in b ==> !bad(c)
    ensures RemoveChars(a + [m] + b, bad) == a + b
  {
    calc {
      RemoveChars(a + [m] + b, bad);
    == { RemoveCharsAppend(a + [m], b, bad); }
      RemoveChars(a + [m], bad) + RemoveChars(b, bad);
    == { RemoveCharsAppend(a, [m], bad); }
      RemoveChars(a, bad) + RemoveChars([m], bad) + RemoveChars(b, bad);
    == { RemoveCharsNoop(a, bad); RemoveCharsNoop(b, bad); assert RemoveChars([m], bad) == []; }
      a + [] + b;
    == { assert a + [] == a; }
      a + b;
    }
  }

  /** Removing characters keeps every character that is not removed. */
  lemma {:induction false} RemoveCharsKeeps(s: string, bad: char -> bool, c: char)
    requires c in s && !bad(c)
    ensures c in RemoveChars(s, bad)
  {
    if s[0] != c {
      RemoveCharsKeeps(s[1..], bad, c);
    }
  }

  /** `s.replace(/\s+/g, " ")`: every maximal run of white space becomes one space. */
  function CollapseSpaces(s: string): string {
    CollapseRun(s, false)
  }

  /** The collapsing scan; `inRun` says the previous character was white space. */
  function CollapseRun(s: string, inRun: bool): string {
    if s == [] then []
    else if IsSpace(s[0]) then (if inRun then [] else " ") + CollapseRun(s[1..], true)
    else [s[0]] + CollapseRun(s[1..], false)
  }

  /** Collapsing keeps the non-space characters of the input and adds only plain spaces. */
  lemma {:induction false} CollapseRunChars(s: string, inRun: bool)
    ensures forall c :: c in CollapseRun(s, inRun) ==> (c in s && !IsSpace(c)) || c == ' '
  {
    if s != [] {
      CollapseRunChars(s[1..], IsSpace(s[0]));
    }
  }

  /** `s.replace(/\/+/g, "/")`: every maximal run of slashes becomes one slash. */
  function CollapseSlashes(s: string): string
    decreases |s|
  {
    if s == [] then []
    else if s[0] == '/' then "/" + CollapseSlashes(DropLeading(s[1..], '/'))
    else [s[0]] + CollapseSlashes(s[1..])
  }

  /** Collapsing keeps every character that is not white space. */
  lemma {:induction false} CollapseRunKeeps(s: string, inRun: bool, c: char)
    requires c in s && !IsSpace(c)
    ensures c in CollapseRun(s, inRun)
  {
    if s[0] != c {
      CollapseRunKeeps(s[1..], IsSpace(s[0]), c);
    }
  }

  /** No two copies of `c` side by side. */
  predicate NoRepeat(s: string, c: char) {
    forall i :: 0 <= i < |s| - 1 && s[i] == c ==> s[i + 1] != c
  }

  /** Gluing text without `c` to both ends keeps `c` from repeating. */
  lemma NoRepeatJoin(a: string, m: string, b: string, c: char)
    requires c !in a && c !in b && NoRepeat(m, c)
    ensures NoRepeat(a + m + b, c)
  {
    var s := a + m + b;
    assert forall i :: 0 <= i < |a| ==> s[i] == a[i];
    assert forall j :: 0 <= j < |m| ==> s[|a| + j] == m[j];
    assert forall j :: 0 <= j < |b| ==> s[|a| + |m| + j] == b[j];
    forall i | 0 <= i < |s| - 1 && s[i] == c ensures s[i + 1] != c {
      if |a| <= i && i + 1 < |a| + |m| {
        assert s[i] == m[i - |a|] && s[i + 1] == m[i + 1 - |a|];
      }
    }
  }

  /** Collapsing leaves a path without a slash run alone. */
  lemma {:induction false} CollapseSlashesNoop(s: string)
    requires NoRepeat(s, '/')
    ensures CollapseSlashes(s) == s
    decreases |s|
  {
    if s != [] {
      assert NoRepeat(s[1..], '/') by {
        forall i | 0 <= i < |s[1..]| - 1 && s[1..][i] == '/' ensures s[1..][i + 1] != '/' {
          assert s[i + 1] == '/';
        }
      }
      CollapseSlashesNoop(s[1..]);
      if s[0] == '/' {
        assert DropLeading(s[1..], '/') == s[1..];
      }
    }
  }

  /** Collapsing slashes keeps only characters of the input. */
  lemma {:induction false} CollapseSlashesChars(s: string)
    ensures forall c :: c in CollapseSlashes(s) ==> c in s
    decreases |s|
  {
    if s != [] {
      if s[0] == '/' {
        CollapseSlashesChars(DropLeading(s[1..], '/'));
      } else {
        CollapseSlashesChars(s[1..]);
      }
    }
  }

  /** `s` without its leading copies of `c`. */
  function DropLeading(s: string, c: char): (r: string)
    ensures |r| <= |s| && r == s[|s| - |r|..]
    ensures r == [] || r[0] != c
  {
    if s != [] && s[0] == c then DropLeading(s[1..], c) else s
  }

  // ------------------------------------------------------- case folding

  /** ASCII lower case. A `/i` pattern made of ASCII characters matches exactly the
      strings that agree with it after this folding. */
  function LowerChar(c: char): char {
    if 'A' <= c <= 'Z' then (c as int + 32) as char else c
  }

  function Lower(s: string): (r: string)
    ensures |r| == |s|
    ensures forall i :: 0 <= i < |s| ==> r[i] == LowerChar(s[i])
  {
    seq(|s|, i requires 0 <= i < |s| => LowerChar(s[i]))
  }

  /** Folding a string without capitals changes nothing. */
  lemma LowerNoop(s: string)
    requires forall i :: 0 <= i < |s| ==> !('A' <= s[i] <= 'Z')
    ensures Lower(s) == s
  {
  }

  predicate EqualsIgnoreCase(s: string, p: string) {
    Lower(s) == Lower(p)
  }

  predicate StartsWithIgnoreCase(s: string, p: string) {
    StartsWith(Lower(s), Lower(p))
  }

  predicate EndsWithIgnoreCase(s: string, p: string) {
    EndsWith(Lower(s), Lower(p))
  }

  predicate ContainsIgnoreCase(s: string, p: string) {
    Contains(Lower(s), Lower(p))
  }

  /** A case-insensitive prefix is kept by any longer prefix of the string, and
      the string's characters under it are white space exactly where the pattern's are. */
  lemma StartsWithIgnoreCaseTake(s: string, p: string, n: nat)
    requires StartsWithIgnoreCase(s, p) && |p| <= n <= |s|
    ensures StartsWithIgnoreCase(s[..n], p)
    ensures forall k :: 0 <= k < |p| ==> (IsSpace(s[k]) <==> IsSpace(p[k]))
  {
    assert Lower(s[..n])[..|p|] == Lower(s)[..|p|];
    forall k | 0 <= k < |p| ensures IsSpace(s[k]) <==> IsSpace(p[k]) {
      assert Lower(s)[k] == Lower(p)[k];
    }
  }

  // -------------------------------------------------------------- split

  /** JavaScript's `s.split(c)` for a one-character separator. */
  function Split(s: string, c: char): (parts: seq<string>)
    ensures |parts| >= 1
    ensures forall i :: 0 <= i < |parts| ==> c !in parts[i]
  {
    if s == [] then [""]
    else
      var rest := Split(s[1..], c);
      if s[0] == c then [""] + rest
      else [[s[0]] + rest[0]] + rest[1..]
  }

  /** The pieces hold only characters of the string. */
  lemma {:induction false} SplitChars(s: string, c: char)
    ensures forall i, x :: 0 <= i < |Split(s, c)| && x in Split(s, c)[i] ==> x in s
  {
    if s != [] {
      SplitChars(s[1..], c);
      var rest := Split(s[1..], c);
      forall i, x | 0 <= i < |Split(s, c)| && x in Split(s, c)[i] ensures x in s {
        if s[0] == c {
          assert i > 0 && Split(s, c)[i] == rest[i - 1];
          assert x in s[1..];
        } else if i == 0 && x != s[0] {
          assert x in rest[0];
          assert x in s[1..];
        } else if i > 0 {
          assert Split(s, c)[i] == rest[i];
          assert x in s[1..];
        }
      }
    }
  }

  /** `parts.join(sep)`. */
  function Join(parts: seq<string>, sep: string): string {
    if parts == [] then ""
    else if |parts| == 1 then parts[0]
    else parts[0] + sep + Join(parts[1..], sep)
  }

  /** Splitting and joining with the same separator gives back the string. */
  lemma {:induction false} JoinSplit(s: string, c: char)
    ensures Join(Split(s, c), [c]) == s
  {
    if s != [] {
      var rest := Split(s[1..], c);
      JoinSplit(s[1..], c);
      if s[0] == c {
        assert Split(s, c) == [""] + rest;
        assert Join(Split(s, c), [c]) == "" + [c] + Join(rest, [c]);
        assert s == [s[0]] + s[1..];
      } else {
        var parts := Split(s, c);
        assert parts == [[s[0]] + rest[0]] + rest[1..];
        if |rest| == 1 {
          assert Join(parts, [c]) == [s[0]] + rest[0];
          assert Join(rest, [c]) == rest[0];
        } else {
          assert parts[1..] == rest[1..];
          assert Join(parts, [c]) == [s[0]] + rest[0] + [c] + Join(rest[1..], [c]);
          assert Join(rest, [c]) == rest[0] + [c] + Join(rest[1..], [c]);
        }
        assert s == [s[0]] + s[1..];
      }
    }
  }

  /** Splitting a string that starts with a separator-free prefix extends the first piece. */
  lemma {:induction false} SplitPrefix(p: string, t: string, c: char)
    requires c !in p
    ensures Split(p + t, c) == [p + Split(t, c)[0]] + Split(t, c)[1..]
  {
    if p != [] {
      SplitPrefix(p[1..], t, c);
      assert (p + t)[1..] == p[1..] + t;
      assert (p + t)[0] == p[0];
      assert [p[0]] + (p[1..] + Split(t, c)[0]) == p + Split(t, c)[0];
    } else {
      var parts := Split(t, c);
      assert p + t == t && p + parts[0] == parts[0];
      assert parts == [parts[0]] + parts[1..];
    }
  }

  /** Joining separator-free pieces and splitting again gives back the pieces. */
  lemma {:induction false} SplitJoin(parts: seq<string>, c: char)
    requires parts != []
    requires forall i :: 0 <= i < |parts| ==> c !in parts[i]
    ensures Split(Join(parts, [c]), c) == parts
  {
    if |parts| == 1 {
      SplitPrefix(parts[0], [], c);
      assert parts[0] + [] == parts[0];
    } else {
      var rest := Join(parts[1..], [c]);
      SplitJoin(parts[1..], c);
      assert Join(parts, [c]) == parts[0] + ([c] + rest);
      SplitPrefix(parts[0], [c] + rest, c);
      assert ([c] + rest)[1..] == rest;
      assert Split([c] + rest, c) == [""] + parts[1..];
      assert parts[0] + "" == parts[0];
      assert parts == [parts[0]] + parts[1..];
    }
  }

  /** Every character of a join is a character of a part or of the separator. */
  lemma {:induction false} JoinChars(parts: seq<string>, sep: string)
    ensures forall x :: x in Join(parts, sep) ==> x in sep || exists i :: 0 <= i < |parts| && x in parts[i]
  {
    if |parts| > 1 {
      JoinChars(parts[1..], sep);
      forall x | x in Join(parts, sep)
        ensures x in sep || exists i :: 0 <= i < |parts| && x in parts[i]
      {
        if x !in parts[0] && x !in sep {
          assert x in Join(parts[1..], sep);
          var i :| 0 <= i < |parts[1..]| && x in parts[1..][i];
          assert x in parts[i + 1];
        }
      }
    }
  }

  /** A join avoids the characters that neither its parts nor its separator contain. */
  lemma JoinAvoids(parts: seq<string>, sep: string, bad: char -> bool)
    requires forall i, x :: 0 <= i < |parts| && x in parts[i] ==> !bad(x)
    requires forall x :: x in sep ==> !bad(x)
    ensures forall x :: x in Join(parts, sep) ==> !bad(x)
  {
    JoinChars(parts, sep);
  }

  /** The last position of a character of `cs` in `s`. */
  function LastIndexIn(s: string, cs: set<char>): (r: Option<nat>)
    ensures r.Some? ==> r.value < |s| && s[r.value] in cs
    ensures r.Some? ==> forall k :: r.value < k < |s| ==> s[k] !in cs
    ensures r.None? ==> forall k :: 0 <= k < |s| ==> s[k] !in cs
  {
    if s == [] then None
    else if s[|s| - 1] in cs then Some(|s| - 1)
    else LastIndexIn(s[..|s| - 1], cs)
  }

  /** The pieces of `split` that are not empty (`.filter(Boolean)`). */
  function NonEmpty(parts: seq<string>): (r: seq<string>)
    ensures forall i :: 0 <= i < |r| ==> r[i] != []
    ensures |r| <= |parts|
  {
    if parts == [] then []
    else (if parts[0] == [] then [] else [parts[0]]) + NonEmpty(parts[1..])
  }

  /** Pieces that are all non-empty are all kept. */
  lemma {:induction false} NonEmptyNoop(parts: seq<string>)
    requires forall i :: 0 <= i < |parts| ==> parts[i] != []
    ensures NonEmpty(parts) == parts
  {
    if parts != [] {
      NonEmptyNoop(parts[1..]);
      assert parts == [parts[0]] + parts[1..];
    }
  }

  /** The kept pieces are pieces of the input. */
  lemma {:induction false} NonEmptyIn(parts: seq<string>)
    ensures forall i :: 0 <= i < |NonEmpty(parts)| ==> NonEmpty(parts)[i] in parts
  {
    if parts != [] {
      NonEmptyIn(parts[1..]);
      var r := NonEmpty(parts);
      var rest := NonEmpty(parts[1..]);
      forall i | 0 <= i < |r| ensures r[i] in parts {
        if parts[0] == [] {
          assert r[i] == rest[i];
        } else if i > 0 {
          assert r[i] == rest[i - 1];
        }
      }
    }
  }

  // ------------------------------------------------------------- numbers

  /** Decimal rendering of a natural number, as template literals print it. */
  function NatToString(n: nat): (r: string)
    ensures r != []
    ensures forall c :: c in r ==> '0' <= c <= '9'
  {
    if n < 10 then [('0' as int + n) as char]
    else NatToString(n / 10) + [('0' as int + n % 10) as char]
  }

  // ------------------------------------------------------- regex captures

  /** A regex character class: `[^...]`, `[^\s]` or `[a-zA-Z0-9_-]`. */
  datatype CharClass = NoneOf(excluded: set<char>) | NonSpace | Word

  predicate InClass(c: char, cls: CharClass) {
    match cls
    case NoneOf(excluded) => c !in excluded
    case NonSpace => !IsSpace(c)
    case Word => 'a' <= c <= 'z' || 'A' <= c <= 'Z' || '0' <= c <= '9' || c == '_' || c == '-'
  }

  /** The length of the longest run of `cls` characters in `s` starting at `from` (a greedy `[...]*`). */
  function Run(s: string, from: nat, cls: CharClass): (r: nat)
    requires from <= |s|
    decreases |s| - from
    ensures from + r <= |s|
    ensures forall k :: from <= k < from + r ==> InClass(s[k], cls)
    ensures from + r == |s| || !InClass(s[from + r], cls)
  {
    if from < |s| && InClass(s[from], cls) then 1 + Run(s, from + 1, cls) else 0
  }

  /** A run is at least as long as any stretch of class characters it starts. */
  lemma {:induction false} RunAtLeast(s: string, from: nat, m: nat, cls: CharClass)
    requires from + m <= |s|
    requires forall k :: from <= k < from + m ==> InClass(s[k], cls)
    ensures Run(s, from, cls) >= m
    decreases m
  {
    if m > 0 {
      RunAtLeast(s, from + 1, m - 1, cls);
    }
  }

  /** The regex `lit([cls]+)` followed, when `close` is given, by that character. */
  datatype Pattern = Pattern(lit: string, cls: CharClass, close: Option<char>)

  predicate MatchesAt(s: string, p: nat, pat: Pattern) {
    && OccursAt(s, pat.lit, p)
    && var n := Run(s, p + |pat.lit|, pat.cls);
    && n > 0
    && (pat.close.Some? ==> p + |pat.lit| + n < |s| && s[p + |pat.lit| + n] == pat.close.value)
  }

  /** The text captured by the group when the pattern matches at `p`. */
  function CaptureAt(s: string, p: nat, pat: Pattern): (r: string)
    requires MatchesAt(s, p, pat)
    ensures r != []
    ensures forall c :: c in r ==> InClass(c, pat.cls)
  {
    var start := p + |pat.lit|;
    var r := s[start..start + Run(s, start, pat.cls)];
    assert forall c :: c in r ==> InClass(c, pat.cls) by {
      forall c | c in r ensures InClass(c, pat.cls) {
        var k :| 0 <= k < |r| && r[k] == c;
        assert s[start + k] == c;
      }
    }
    r
  }

  /** The leftmost position at or after `from` where the pattern matches. */
  function FindFrom(s: string, pat: Pattern, from: nat): (r: Option<nat>)
    decreases |s| - from
    ensures r.Some? ==> from <= r.value && MatchesAt(s, r.value, pat)
    ensures r.Some? ==> forall k :: from <= k < r.value ==> !MatchesAt(s, k, pat)
    ensures r.None? ==> forall k :: from <= k ==> !MatchesAt(s, k, pat)
  {
    if from >= |s| then None
    else if MatchesAt(s, from, pat) then Some(from)
    else FindFrom(s, pat, from + 1)
  }

  /** `s.match(pattern)?.[1]`: the group of the leftmost match. */
  function Capture(s: string, pat: Pattern): (r: Option<string>)
    ensures r.Some? ==> r.value != [] && forall c :: c in r.value ==> InClass(c, pat.cls)
  {
    match FindFrom(s, pat, 0)
    case None => None
    case Some(p) => Some(CaptureAt(s, p, pat))
  }

  /** There is no capture exactly when the pattern matches nowhere. */
  lemma CaptureNone(s: string, pat: Pattern)
    ensures Capture(s, pat).None? <==> forall k :: !MatchesAt(s, k, pat)
  {
  }

  /** A string built as `prefix + lit + id + suffix` captures `id`, provided the
      pattern matches nowhere inside `prefix`, `id` is a non-empty run of the class
      and `suffix` does not continue that run. */
  lemma CaptureOfShape(prefix: string, id: string, suffix: string, pat: Pattern)
    requires pat.close.None?
    requires id != [] && forall c :: c in id ==> InClass(c, pat.cls)
    requires suffix == [] || !InClass(suffix[0], pat.cls)
    requires forall k: nat :: k < |prefix| ==> !MatchesAt(prefix + pat.lit + id + suffix, k, pat)
    ensures Capture(prefix + pat.lit + id + suffix, pat) == Some(id)
  {
    var s := prefix + pat.lit + id + suffix;
    var start := |prefix| + |pat.lit|;
    assert s[|prefix|..] == pat.lit + id + suffix;
    assert s[|prefix|..start] == pat.lit;
    assert s[start..start + |id|] == id;
    RunOfShape(s, start, id, suffix, pat.cls);
    assert MatchesAt(s, |prefix|, pat);
    var r := FindFrom(s, pat, 0);
    assert r == Some(|prefix|);
  }

  lemma RunOfShape(s: string, start: nat, id: string, suffix: string, cls: CharClass)
    requires start + |id| + |suffix| == |s|
    requires s[start..start + |id|] == id && s[start + |id|..] == suffix
    requires forall c :: c in id ==> InClass(c, cls)
    requires suffix == [] || !InClass(suffix[0], cls)
    ensures Run(s, start, cls) == |id|
    decreases |id|
  {
    if id == [] {
      assert s[start..] == suffix;
    } else {
      assert s[start] == id[0];
      assert s[start + 1..start + 1 + |id[1..]|] == id[1..];
      RunOfShape(s, start + 1, id[1..], suffix, cls);
    }
  }
}
