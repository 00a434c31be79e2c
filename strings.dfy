/**
 * The JavaScript String built-ins the core relies on: trim, split on one
 * character, split on runs of separators, startsWith, includes and a global
 * literal replace.
 */
module JsString {
  import opened Common

  /** WhiteSpace and LineTerminator code points of ECMA-262 (sections 12.2 and 12.3):
      the characters String.prototype.trim and parseInt strip. */
  predicate IsWhite(c: char) {
    || c == '\t' || c == '\U{000B}' || c == '\U{000C}' || c == '\U{FEFF}'
    || c == ' ' || c == '\U{00A0}' || c == '\U{1680}'
    || ('\U{2000}' <= c <= '\U{200A}') || c == '\U{202F}' || c == '\U{205F}' || c == '\U{3000}'
    || c == '\n' || c == '\r' || c == '\U{2028}' || c == '\U{2029}'
  }

  /** Leading white space removed: the result is a suffix of `s`, what was cut is white,
      and the result does not start with white space. */
  function TrimStart(s: string): (r: string)
    ensures |r| <= |s| && r == s[|s| - |r|..]
    ensures forall k :: 0 <= k < |s| - |r| ==> IsWhite(s[k])
    ensures |r| > 0 ==> !IsWhite(r[0])
  {
    if |s| > 0 && IsWhite(s[0]) then TrimStart(s[1..]) else s
  }

  /** Trailing white space removed: the result is a prefix of `s`, what was cut is white,
      and the result does not end with white space. */
  function TrimEnd(s: string): (r: string)
    ensures |r| <= |s| && r == s[..|r|]
    ensures forall k :: |r| <= k < |s| ==> IsWhite(s[k])
    ensures |r| > 0 ==> !IsWhite(r[|r| - 1])
  {
    if |s| > 0 && IsWhite(s[|s| - 1]) then TrimEnd(s[..|s| - 1]) else s
  }

  /** String.prototype.trim: a run of `s` with only white space cut from both ends, and
      neither end of the result is white space. */
  function Trim(s: string): (r: string)
    ensures |r| <= |s|
    ensures |r| > 0 ==> !IsWhite(r[0]) && !IsWhite(r[|r| - 1])
    ensures exists i :: 0 <= i <= |s| - |r| && AllWhite(s[..i]) && r == s[i..i + |r|] && AllWhite(s[i + |r|..])
  {
    var u := TrimStart(s);
    var r := TrimEnd(u);
    TrimCut(s, u, r);
    r
  }

  /** Helper: a suffix after white space, then a prefix before white space, is a run of `s`
      with only white space around it, and neither of its ends is white. */
  lemma {:induction false} TrimCut(s: string, u: string, r: string)
    requires |u| <= |s| && u == s[|s| - |u|..] && forall k :: 0 <= k < |s| - |u| ==> IsWhite(s[k])
    requires |u| > 0 ==> !IsWhite(u[0])
    requires |r| <= |u| && r == u[..|r|] && forall k :: |r| <= k < |u| ==> IsWhite(u[k])
    requires |r| > 0 ==> !IsWhite(r[|r| - 1])
    ensures |r| <= |s|
    ensures |r| > 0 ==> !IsWhite(r[0]) && !IsWhite(r[|r| - 1])
    ensures exists i :: 0 <= i <= |s| - |r| && AllWhite(s[..i]) && r == s[i..i + |r|] && AllWhite(s[i + |r|..])
  {
    var i := |s| - |u|;
    if |r| > 0 {
      assert r[0] == u[0];
    }
    assert r == s[i..i + |r|];
    AllWhiteOf(s[..i]);
    var t := s[i + |r|..];
    forall k | 0 <= k < |t| ensures IsWhite(t[k]) {
      assert t[k] == u[|r| + k];
    }
    AllWhiteOf(t);
  }

  /** Every character of `t` is white space. */
  predicate AllWhite(t: string)
    decreases |t|
  {
    |t| == 0 || (IsWhite(t[0]) && AllWhite(t[1..]))
  }

  lemma {:induction false} AllWhiteOf(t: string)
    requires forall k :: 0 <= k < |t| ==> IsWhite(t[k])
    ensures AllWhite(t)
    decreases |t|
  {
    if |t| > 0 {
      AllWhiteOf(t[1..]);
    }
  }

  /** Trimming keeps a run of `s`, so a character class absent from `s` is absent from the result. */
  lemma {:induction false} TrimAvoids(s: string, bad: char -> bool)
    requires forall j :: 0 <= j < |s| ==> !bad(s[j])
    ensures forall j :: 0 <= j < |Trim(s)| ==> !bad(Trim(s)[j])
  {
    var u := TrimStart(s);
    var off := |s| - |u|;
    var r := TrimEnd(u);
    assert Trim(s) == r;
    forall j | 0 <= j < |r| ensures !bad(r[j]) {
      assert r[j] == u[j] == s[off + j];
    }
  }

  /** Neither end of `s` is white space. */
  predicate IsTrimmed(s: string) {
    |s| > 0 ==> !IsWhite(s[0]) && !IsWhite(s[|s| - 1])
  }

  /** A string that is already trimmed is its own trim, and every trim is trimmed. */
  lemma {:induction false} TrimIdentity(s: string)
    ensures IsTrimmed(Trim(s))
    ensures IsTrimmed(s) ==> Trim(s) == s
  {
  }

  /** String.prototype.startsWith. */
  predicate StartsWith(s: string, prefix: string) {
    prefix <= s
  }

  /** String.prototype.includes. */
  predicate Includes(s: string, sub: string)
    decreases |s|
  {
    sub <= s || (|s| > 0 && Includes(s[1..], sub))
  }

  /** An occurrence at index `k` makes `includes` true. */
  lemma {:induction false} IncludesAt(s: string, sub: string, k: nat)
    requires k + |sub| <= |s| && s[k..k + |sub|] == sub
    ensures Includes(s, sub)
    decreases k
  {
    if k > 0 {
      assert s[1..][k - 1..k - 1 + |sub|] == s[k..k + |sub|];
      IncludesAt(s[1..], sub, k - 1);
    }
  }

  /** A string shorter than `sub` does not include it. */
  lemma {:induction false} IncludesNeedsLength(s: string, sub: string)
    requires |s| < |sub|
    ensures !Includes(s, sub)
    decreases |s|
  {
    if |s| > 0 {
      IncludesNeedsLength(s[1..], sub);
    }
  }

  /** Without the first character of `sub` anywhere in `s` there is no occurrence. */
  lemma {:induction false} IncludesNeedsHead(s: string, sub: string)
    requires |sub| > 0 && sub[0] !in s
    ensures !Includes(s, sub)
    decreases |s|
  {
    if |s| > 0 {
      assert sub[0] !in s[1..];
      IncludesNeedsHead(s[1..], sub);
    }
  }

  /** The pieces of `parts` glued back together with `sep` between neighbours. */
  function Join(parts: seq<string>, sep: char): string
  {
    if |parts| == 0 then "" else if |parts| == 1 then parts[0] else parts[0] + [sep] + Join(parts[1..], sep)
  }

  /** String.prototype.split with a one-character separator: never empty, no piece
      holds the separator, and joining the pieces gives the input back. */
  function Split(s: string, sep: char): (parts: seq<string>)
    ensures |parts| >= 1
    ensures forall k :: 0 <= k < |parts| ==> sep !in parts[k]
    ensures Join(parts, sep) == s
    decreases |s|
  {
    if |s| == 0 then [""]
    else
      var rest := Split(s[1..], sep);
      if s[0] == sep then
        assert Join([""] + rest, sep) == [sep] + Join(rest, sep);
        assert s == [sep] + s[1..];
        [""] + rest
      else
        var head := [s[0]] + rest[0];
        assert |rest| > 1 ==> Join(rest, sep) == rest[0] + [sep] + Join(rest[1..], sep);
        assert |rest| > 1 ==> ([head] + rest[1..])[1..] == rest[1..];
        assert s == [s[0]] + s[1..];
        [head] + rest[1..]
  }

  /** A piece without the separator splits into itself. */
  lemma {:induction false} SplitNoSep(s: string, sep: char)
    requires sep !in s
    ensures Split(s, sep) == [s]
    decreases |s|
  {
    if |s| > 0 {
      assert sep !in s[1..];
      SplitNoSep(s[1..], sep);
      assert [s[0]] + s[1..] == s;
    }
  }

  /** Splitting peels a separator-free first piece off. */
  lemma {:induction false} SplitPrefix(a: string, rest: string, sep: char)
    requires sep !in a
    ensures Split(a + [sep] + rest, sep) == [a] + Split(rest, sep)
    decreases |a|
  {
    var s := a + [sep] + rest;
    if |a| == 0 {
      assert s[1..] == rest;
    } else {
      assert s[1..] == a[1..] + [sep] + rest;
      assert sep !in a[1..];
      SplitPrefix(a[1..], rest, sep);
      assert [a[0]] + a[1..] == a;
    }
  }

  /** Splitting a joined list of separator-free pieces gives the pieces back. */
  lemma {:induction false} SplitJoin(parts: seq<string>, sep: char)
    requires |parts| >= 1
    requires forall k :: 0 <= k < |parts| ==> sep !in parts[k]
    ensures Split(Join(parts, sep), sep) == parts
    decreases |parts|
  {
    if |parts| == 1 {
      SplitNoSep(parts[0], sep);
    } else {
      SplitJoin(parts[1..], sep);
      SplitPrefix(parts[0], Join(parts[1..], sep), sep);
      assert [parts[0]] + parts[1..] == parts;
    }
  }

  /** The text before the first `sep` (the whole string when there is none). */
  function BeforeFirst(s: string, sep: char): (r: string)
    ensures r <= s && sep !in r
    ensures |r| < |s| ==> s[|r|] == sep
  {
    if |s| == 0 || s[0] == sep then "" else [s[0]] + BeforeFirst(s[1..], sep)
  }

  /** `s.split(sep)[0]` is the text before the first separator. */
  lemma {:induction false} SplitHead(s: string, sep: char)
    ensures Split(s, sep)[0] == BeforeFirst(s, sep)
    decreases |s|
  {
    if |s| > 0 && s[0] != sep {
      SplitHead(s[1..], sep);
    }
  }

  /** The length of the run at the start of `s` whose characters satisfy `p`. */
  function RunLength(s: string, p: char -> bool): (n: nat)
    ensures n <= |s|
    ensures forall k :: 0 <= k < n ==> p(s[k])
    ensures n < |s| ==> !p(s[n])
  {
    if |s| > 0 && p(s[0]) then 1 + RunLength(s[1..], p) else 0
  }

  /** The index of the first character satisfying `p`, or |s| when there is none. */
  function FirstIndex(s: string, p: char -> bool): (i: nat)
    ensures i <= |s|
    ensures forall k :: 0 <= k < i ==> !p(s[k])
    ensures i < |s| ==> p(s[i])
  {
    if |s| == 0 || p(s[0]) then 0 else 1 + FirstIndex(s[1..], p)
  }

  /** `s.split(re)` where `re` matches a maximal run of separator characters
      (as `/[,\n\r]+/` does): the pieces between runs, with an empty first or last
      piece when `s` starts or ends with a separator.  SplitRunsRestores and
      SplitRunsInner state how the pieces sit in `s`. */
  function SplitRuns(s: string, isSep: char -> bool): (parts: seq<string>)
    ensures |parts| >= 1
    ensures forall k, j :: 0 <= k < |parts| && 0 <= j < |parts[k]| ==> !isSep(parts[k][j])
    decreases |s|
  {
    var i := FirstIndex(s, isSep);
    if i == |s| then [s]
    else
      var run := RunLength(s[i..], isSep);
      [s[..i]] + SplitRuns(s[i + run..], isSep)
  }

  /** The pieces with the separator runs between them give back `s`. */
  lemma {:induction false} SplitRunsRestores(s: string, isSep: char -> bool)
    ensures |SplitRuns(s, isSep)| == |SeparatorRuns(s, isSep)| + 1
    ensures Interleave(SplitRuns(s, isSep), SeparatorRuns(s, isSep)) == s
    decreases |s|
  {
    var i := FirstIndex(s, isSep);
    if i < |s| {
      var run := RunLength(s[i..], isSep);
      var t := s[i + run..];
      SplitRunsRestores(t, isSep);
      SplitRunsFront(s, isSep);
      SeparatorRunsFront(s, isSep);
      SliceOfSuffix(s, i, run);
      RestoresFront(s, i, i + run, SplitRuns(s, isSep), SeparatorRuns(s, isSep), SplitRuns(t, isSep), SeparatorRuns(t, isSep));
    }
  }

  /** Helper: lists that are the text before `i` and the run up to `j` in front of an
      interleaving of the rest of `s` interleave to `s`. */
  lemma {:induction false} RestoresFront(s: string, i: nat, j: nat, all: seq<string>, allRuns: seq<string>,
                                         pieces: seq<string>, runs: seq<string>)
    requires i <= j <= |s| && |pieces| == |runs| + 1
    requires Interleave(pieces, runs) == s[j..]
    requires all == [s[..i]] + pieces && allRuns == [s[i..j]] + runs
    ensures |all| == |allRuns| + 1 && Interleave(all, allRuns) == s
  {
    InterleaveRestores(s, i, j, pieces, runs);
  }

  /** Helper: a prefix of a suffix is a slice. */
  lemma {:induction false} SliceOfSuffix(s: string, i: nat, n: nat)
    requires i + n <= |s|
    ensures s[i..][..n] == s[i..i + n]
  {
  }

  /** Helper: the first piece of `s`, then the pieces after its first run. */
  lemma {:induction false} SplitRunsFront(s: string, isSep: char -> bool)
    ensures var i := FirstIndex(s, isSep);
      i < |s| ==> var run := RunLength(s[i..], isSep);
        SplitRuns(s, isSep) == [s[..i]] + SplitRuns(s[i + run..], isSep)
  {
    var i := FirstIndex(s, isSep);
    if i < |s| {
      var run := RunLength(s[i..], isSep);
      assert SplitRuns(s, isSep) == [s[..i]] + SplitRuns(s[i + run..], isSep);
    }
  }

  /** The first piece is empty exactly when `s` is empty or starts with a separator, and
      every piece strictly between the first and the last is non-empty. */
  lemma {:induction false} SplitRunsInner(s: string, isSep: char -> bool)
    ensures SplitRuns(s, isSep)[0] == "" <==> |s| == 0 || isSep(s[0])
    ensures forall k :: 0 < k < |SplitRuns(s, isSep)| - 1 ==> SplitRuns(s, isSep)[k] != ""
    decreases |s|
  {
    var i := FirstIndex(s, isSep);
    if i < |s| {
      var run := RunLength(s[i..], isSep);
      var t := s[i + run..];
      SplitRunsInner(t, isSep);
      assert |t| > 0 ==> !isSep(t[0]);
      ConsInner(s[..i], SplitRuns(t, isSep));
    }
  }

  /** Helper: the text before index `i`, the run up to `j` and an interleaving that gives
      the rest of `s` together give `s`. */
  lemma {:induction false} InterleaveRestores(s: string, i: nat, j: nat, pieces: seq<string>, runs: seq<string>)
    requires i <= j <= |s| && |pieces| == |runs| + 1
    requires Interleave(pieces, runs) == s[j..]
    ensures Interleave([s[..i]] + pieces, [s[i..j]] + runs) == s
  {
    InterleaveCons(s[..i], s[i..j], pieces, runs);
    assert s == s[..i] + s[i..j] + s[j..];
  }

  /** Helper: one more piece and run in front of an interleaving. */
  lemma {:induction false} InterleaveCons(a: string, run: string, pieces: seq<string>, runs: seq<string>)
    requires |pieces| == |runs| + 1
    ensures Interleave([a] + pieces, [run] + runs) == a + run + Interleave(pieces, runs)
  {
    assert ([a] + pieces)[1..] == pieces && ([run] + runs)[1..] == runs;
  }

  /** Helper: a piece in front of a list whose first piece is non-empty (or that has only
      one piece) keeps the inner pieces non-empty. */
  lemma {:induction false} ConsInner(a: string, rest: seq<string>)
    requires |rest| >= 1
    requires |rest| > 1 ==> rest[0] != ""
    requires forall k :: 0 < k < |rest| - 1 ==> rest[k] != ""
    ensures forall k :: 0 < k < |[a] + rest| - 1 ==> ([a] + rest)[k] != ""
  {
    forall k | 0 < k < |[a] + rest| - 1 ensures ([a] + rest)[k] != "" {
      assert ([a] + rest)[k] == rest[k - 1];
    }
  }

  /** The maximal runs of separator characters in `s`, left to right. */
  function SeparatorRuns(s: string, isSep: char -> bool): (runs: seq<string>)
    ensures forall k :: 0 <= k < |runs| ==> runs[k] != ""
    ensures forall k, j :: 0 <= k < |runs| && 0 <= j < |runs[k]| ==> isSep(runs[k][j])
    decreases |s|
  {
    var i := FirstIndex(s, isSep);
    if i == |s| then []
    else
      var run := RunLength(s[i..], isSep);
      var rest := SeparatorRuns(s[i + run..], isSep);
      RunsCons(s[i..], run, rest, isSep);
      [s[i..][..run]] + rest
  }

  /** Helper: a non-empty run of separators in front of a list of runs is a list of runs. */
  lemma {:induction false} RunsCons(u: string, run: nat, rest: seq<string>, isSep: char -> bool)
    requires 0 < run <= |u| && forall k :: 0 <= k < run ==> isSep(u[k])
    requires forall k :: 0 <= k < |rest| ==> rest[k] != ""
    requires forall k, j :: 0 <= k < |rest| && 0 <= j < |rest[k]| ==> isSep(rest[k][j])
    ensures var runs := [u[..run]] + rest;
      && (forall k :: 0 <= k < |runs| ==> runs[k] != "")
      && (forall k, j :: 0 <= k < |runs| && 0 <= j < |runs[k]| ==> isSep(runs[k][j]))
  {
    var runs := [u[..run]] + rest;
    forall k, j | 0 <= k < |runs| && 0 <= j < |runs[k]| ensures isSep(runs[k][j]) {
      if k > 0 {
        assert runs[k] == rest[k - 1];
      }
    }
  }

  /** Helper: the first run of `s`, then the runs after it. */
  lemma {:induction false} SeparatorRunsFront(s: string, isSep: char -> bool)
    ensures var i := FirstIndex(s, isSep);
      i < |s| ==> var run := RunLength(s[i..], isSep);
        SeparatorRuns(s, isSep) == [s[i..][..run]] + SeparatorRuns(s[i + run..], isSep)
  {
  }

  /** `pieces[0] + runs[0] + pieces[1] + … + pieces[|runs|]`. */
  function Interleave(pieces: seq<string>, runs: seq<string>): string
    requires |pieces| == |runs| + 1
    decreases |runs|
  {
    if |runs| == 0 then pieces[0] else pieces[0] + runs[0] + Interleave(pieces[1..], runs[1..])
  }

  /** A piece free of separators, one separator and a tail not starting with one: the piece is split off. */
  lemma {:induction false} SplitRunsStep(head: string, sep: char, tail: string, isSep: char -> bool)
    requires isSep(sep)
    requires forall j :: 0 <= j < |head| ==> !isSep(head[j])
    requires |tail| > 0 ==> !isSep(tail[0])
    ensures SplitRuns(head + [sep] + tail, isSep) == [head] + SplitRuns(tail, isSep)
  {
    var s := head + [sep] + tail;
    assert forall j :: 0 <= j < |head| ==> s[j] == head[j];
    assert s[|head|] == sep;
    var i := FirstIndex(s, isSep);
    assert i == |head|;
    assert s[..i] == head;
    var t := s[i..];
    assert t == [sep] + tail;
    assert RunLength(t, isSep) == 1 by {
      assert t[0] == sep;
      assert |t| > 1 ==> t[1] == tail[0];
    }
    assert s[i + 1..] == tail;
  }

  /** A join of non-empty pieces starts with the first character of the first piece. */
  lemma {:induction false} JoinStart(parts: seq<string>, sep: char)
    requires |parts| >= 1 && parts[0] != ""
    ensures |Join(parts, sep)| > 0 && Join(parts, sep)[0] == parts[0][0]
  {
    if |parts| > 1 {
      assert Join(parts, sep) == parts[0] + [sep] + Join(parts[1..], sep);
    }
  }

  /** Non-empty pieces free of separators, joined by one separator each, split back into themselves. */
  lemma {:induction false} SplitRunsJoin(parts: seq<string>, sep: char, isSep: char -> bool)
    requires |parts| >= 1 && isSep(sep)
    requires forall k :: 0 <= k < |parts| ==> parts[k] != ""
    requires forall k, j :: 0 <= k < |parts| && 0 <= j < |parts[k]| ==> !isSep(parts[k][j])
    ensures SplitRuns(Join(parts, sep), isSep) == parts
    decreases |parts|
  {
    var s := Join(parts, sep);
    if |parts| == 1 {
      assert s == parts[0];
      assert FirstIndex(s, isSep) == |s| by {
        assert forall j :: 0 <= j < |s| ==> !isSep(s[j]);
      }
    } else {
      var head := parts[0];
      var rest := parts[1..];
      assert s == head + [sep] + Join(rest, sep);
      assert forall k :: 0 <= k < |rest| ==> rest[k] == parts[k + 1];
      JoinStart(rest, sep);
      assert forall j :: 0 <= j < |head| ==> !isSep(head[j]);
      SplitRunsStep(head, sep, Join(rest, sep), isSep);
      SplitRunsJoin(rest, sep, isSep);
      assert [head] + rest == parts;
    }
  }

  /** `parts.map(s => s.trim()).filter(Boolean)`.  Which pieces survive is stated by
      TrimmedNonEmptyMembers, and their order by TrimmedNonEmptyAppend. */
  function TrimmedNonEmpty(parts: seq<string>): (r: seq<string>)
    ensures |r| <= |parts|
    ensures forall k :: 0 <= k < |r| ==> r[k] != "" && IsTrimmed(r[k])
  {
    if |parts| == 0 then []
    else
      var t := Trim(parts[0]);
      var rest := TrimmedNonEmpty(parts[1..]);
      if t == "" then rest
      else
        TrimIdentity(parts[0]);
        ConsTrimmed(t, rest);
        [t] + rest
  }

  /** Helper: a non-empty trimmed piece in front of non-empty trimmed pieces. */
  lemma {:induction false} ConsTrimmed(t: string, rest: seq<string>)
    requires t != "" && IsTrimmed(t)
    requires forall k :: 0 <= k < |rest| ==> rest[k] != "" && IsTrimmed(rest[k])
    ensures forall k :: 0 <= k < |[t] + rest| ==> ([t] + rest)[k] != "" && IsTrimmed(([t] + rest)[k])
  {
    var r := [t] + rest;
    forall k | 0 <= k < |r| ensures r[k] != "" && IsTrimmed(r[k]) {
      if k > 0 {
        assert r[k] == rest[k - 1];
      }
    }
  }

  /** A string is in the result exactly when it is non-empty and the trim of some piece. */
  lemma {:induction false} TrimmedNonEmptyMembers(parts: seq<string>, x: string)
    ensures x in TrimmedNonEmpty(parts) <==> x != "" && exists p :: p in parts && Trim(p) == x
  {
    if |parts| > 0 {
      var p0 := parts[0];
      var rest := parts[1..];
      TrimmedNonEmptyMembers(rest, x);
      assert parts == [p0] + rest;
      TrimmedNonEmptyCons(p0, rest);
      if x in TrimmedNonEmpty(parts) {
        if x !in TrimmedNonEmpty(rest) {
          assert x == Trim(p0) && p0 in parts;
        } else {
          var p :| p in rest && Trim(p) == x;
          assert p in parts;
        }
      }
      if x != "" && exists p :: p in parts && Trim(p) == x {
        var p :| p in parts && Trim(p) == x;
        if p != p0 {
          assert p in rest;
        }
      }
    }
  }

  /** TrimmedNonEmptyMembers for every string at once. */
  lemma {:induction false} TrimmedNonEmptyMembersAll(parts: seq<string>)
    ensures forall x :: x in TrimmedNonEmpty(parts) <==> x != "" && exists p :: p in parts && Trim(p) == x
  {
    forall x ensures x in TrimmedNonEmpty(parts) <==> x != "" && exists p :: p in parts && Trim(p) == x {
      TrimmedNonEmptyMembers(parts, x);
    }
  }

  /** Cleaning works piece by piece: the result for `a + b` is the result for `a` followed
      by the result for `b`, so the surviving pieces keep their order. */
  lemma {:induction false} TrimmedNonEmptyAppend(a: seq<string>, b: seq<string>)
    ensures TrimmedNonEmpty(a + b) == TrimmedNonEmpty(a) + TrimmedNonEmpty(b)
    decreases |a|
  {
    if |a| == 0 {
      assert a + b == b;
    } else {
      var p := a[0];
      var rest := a[1..];
      var tb := TrimmedNonEmpty(b);
      TrimmedNonEmptyAppend(rest, b);
      assert a == [p] + rest;
      AppendAssoc([p], rest, b);
      assert a + b == [p] + (rest + b);
      TrimmedNonEmptyCons(p, rest + b);
      TrimmedNonEmptyCons(p, rest);
      if Trim(p) != "" {
        AppendAssoc([Trim(p)], TrimmedNonEmpty(rest), tb);
      }
    }
  }

  /** One piece on its own: its trim when that is non-empty, else nothing. */
  lemma {:induction false} TrimmedNonEmptySingle(p: string)
    ensures TrimmedNonEmpty([p]) == if Trim(p) == "" then [] else [Trim(p)]
  {
    TrimmedNonEmptyCons(p, []);
    assert [p] + [] == [p];
  }

  /** Pieces that are already trimmed and non-empty all survive, in order. */
  lemma {:induction false} TrimmedNonEmptyKeeps(parts: seq<string>)
    requires forall k :: 0 <= k < |parts| ==> parts[k] != "" && IsTrimmed(parts[k])
    ensures TrimmedNonEmpty(parts) == parts
  {
    if |parts| > 0 {
      var p := parts[0];
      var rest := parts[1..];
      assert p != "" && IsTrimmed(p);
      forall k | 0 <= k < |rest| ensures rest[k] != "" && IsTrimmed(rest[k]) {
        assert rest[k] == parts[k + 1];
      }
      TrimmedNonEmptyKeeps(rest);
      KeepsFront(p, rest, parts);
    }
  }

  /** Helper: a trimmed non-empty piece in front of pieces that all survive. */
  lemma {:induction false} KeepsFront(p: string, rest: seq<string>, parts: seq<string>)
    requires parts == [p] + rest && p != "" && IsTrimmed(p)
    requires TrimmedNonEmpty(rest) == rest
    ensures TrimmedNonEmpty(parts) == parts
  {
    TrimIdentity(p);
    TrimmedNonEmptyCons(p, rest);
  }

  /** Cleaning a list of pieces none of which holds a character of class `bad` brings none in. */
  lemma {:induction false} TrimmedNonEmptyAvoids(parts: seq<string>, bad: char -> bool)
    requires forall k, j :: 0 <= k < |parts| && 0 <= j < |parts[k]| ==> !bad(parts[k][j])
    ensures forall k, j :: 0 <= k < |TrimmedNonEmpty(parts)| && 0 <= j < |TrimmedNonEmpty(parts)[k]| ==>
      !bad(TrimmedNonEmpty(parts)[k][j])
  {
    if |parts| > 0 {
      var p := parts[0];
      var rest := parts[1..];
      forall k, j | 0 <= k < |rest| && 0 <= j < |rest[k]| ensures !bad(rest[k][j]) {
        assert rest[k] == parts[k + 1];
      }
      TrimmedNonEmptyAvoids(rest, bad);
      assert forall j :: 0 <= j < |p| ==> !bad(p[j]);
      TrimAvoids(p, bad);
      assert parts == [p] + rest;
      TrimmedNonEmptyCons(p, rest);
      var t := Trim(p);
      var r := TrimmedNonEmpty(parts);
      var rr := TrimmedNonEmpty(rest);
      if t != "" {
        ConsAvoids(t, rr, bad);
      }
    }
  }

  /** Helper: a piece and a list free of class `bad` make a list free of it. */
  lemma {:induction false} ConsAvoids(t: string, rest: seq<string>, bad: char -> bool)
    requires forall j :: 0 <= j < |t| ==> !bad(t[j])
    requires forall k, j :: 0 <= k < |rest| && 0 <= j < |rest[k]| ==> !bad(rest[k][j])
    ensures forall k, j :: 0 <= k < |[t] + rest| && 0 <= j < |([t] + rest)[k]| ==> !bad(([t] + rest)[k][j])
  {
    var r := [t] + rest;
    forall k, j | 0 <= k < |r| && 0 <= j < |r[k]| ensures !bad(r[k][j]) {
      if k > 0 {
        assert r[k] == rest[k - 1];
      }
    }
  }

  /** One step of `TrimmedNonEmpty` on a list written as head and tail. */
  lemma {:induction false} TrimmedNonEmptyCons(p: string, rest: seq<string>)
    ensures Trim(p) != "" ==> TrimmedNonEmpty([p] + rest) == [Trim(p)] + TrimmedNonEmpty(rest)
    ensures Trim(p) == "" ==> TrimmedNonEmpty([p] + rest) == TrimmedNonEmpty(rest)
  {
    assert ([p] + rest)[0] == p && ([p] + rest)[1..] == rest;
  }

  /** `s.replace(/pat/g, rep)` for a literal pattern: scanning left to right,
      every non-overlapping occurrence of `pat` becomes `rep`. When `rep` is
      shorter than `pat`, either nothing was replaced or the string got shorter. */
  function ReplaceAll(s: string, pat: string, rep: string): (r: string)
    requires |pat| > 0
    ensures pat[0] !in s ==> r == s
    ensures |rep| < |pat| ==> r == s || |r| < |s|
    ensures |rep| <= |pat| ==> |r| <= |s|
    decreases |s|
  {
    if |s| == 0 then ""
    else if pat <= s then
      assert pat[0] in s by { assert s[0] == pat[0]; }
      rep + ReplaceAll(s[|pat|..], pat, rep)
    else
      assert s == [s[0]] + s[1..];
      [s[0]] + ReplaceAll(s[1..], pat, rep)
  }

  /** Text holding no first character of the pattern is copied as it is, and the scan
      goes on after it. */
  lemma {:induction false} ReplaceAllSkips(x: string, y: string, pat: string, rep: string)
    requires |pat| > 0 && pat[0] !in x
    ensures ReplaceAll(x + y, pat, rep) == x + ReplaceAll(y, pat, rep)
    decreases |x|
  {
    if |x| == 0 {
      assert x + y == y;
    } else {
      var s := x + y;
      assert s[0] == x[0] != pat[0];
      assert !(pat <= s);
      assert s[1..] == x[1..] + y;
      assert pat[0] !in x[1..];
      assert ReplaceAll(s, pat, rep) == [x[0]] + ReplaceAll(x[1..] + y, pat, rep);
      ReplaceAllSkips(x[1..], y, pat, rep);
      assert [x[0]] + x[1..] == x;
      AppendAssoc([x[0]], x[1..], ReplaceAll(y, pat, rep));
    }
  }

  /** An occurrence the scan reaches is replaced: after text holding no first character
      of the pattern, the pattern becomes `rep` and the scan goes on after it. */
  lemma {:induction false} ReplaceAllAt(x: string, y: string, pat: string, rep: string)
    requires |pat| > 0 && pat[0] !in x
    ensures ReplaceAll(x + pat + y, pat, rep) == x + rep + ReplaceAll(y, pat, rep)
  {
    assert x + pat + y == x + (pat + y);
    ReplaceAllSkips(x, pat + y, pat, rep);
    assert (pat + y)[|pat|..] == y;
  }

  /** A piece that starts some other way than the pattern, and holds no further first
      character of it, is copied as it is. */
  lemma {:induction false} ReplaceAllPasses(e: string, y: string, pat: string, rep: string)
    requires |pat| > 0 && |e| > 0 && !(pat <= e + y) && pat[0] !in e[1..]
    ensures ReplaceAll(e + y, pat, rep) == e + ReplaceAll(y, pat, rep)
  {
    assert (e + y)[1..] == e[1..] + y;
    ReplaceAllSkips(e[1..], y, pat, rep);
    assert [e[0]] + e[1..] == e;
  }
}
