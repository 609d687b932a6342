/** The listing parser of blueprint-summary.py: the body of the library
    listing response is split into lines, the first and the last line are
    dropped, and each remaining entry is stripped of its `/` and `"`
    wrapping to give a blueprint ID. */
module Listing {

  /** The separator the listing body is split on. */
  const Newline: char := '\n'

  /** The characters `strip('/"')` removes from both ends of an entry. */
  const IdWrapping: set<char> := {'/', '"'}

  // ---------------------------------------------------------------------
  // str.split with an explicit one-character separator
  // ---------------------------------------------------------------------

  /** Python's `s.split(sep)`: the pieces between consecutive separators,
      empty pieces included. There is always at least one piece, and no
      piece contains the separator. */
  function Split(s: string, sep: char): (pieces: seq<string>)
    ensures |pieces| >= 1
    ensures forall p :: p in pieces ==> sep !in p
    decreases |s|
  {
    if |s| == 0 then [""]
    else
      var rest := Split(s[1..], sep);
      if s[0] == sep then [""] + rest
      else
        assert rest[0] in rest;
        [[s[0]] + rest[0]] + rest[1..]
  }

  /** Python's `sep.join(pieces)`. */
  function Join(pieces: seq<string>, sep: char): string
    decreases |pieces|
  {
    if |pieces| == 0 then ""
    else if |pieces| == 1 then pieces[0]
    else pieces[0] + [sep] + Join(pieces[1..], sep)
  }

  /** There is one more piece than there are separators. */
  lemma {:induction false} SplitCount(s: string, sep: char)
    ensures |Split(s, sep)| == multiset(s)[sep] + 1
    decreases |s|
  {
    if |s| > 0 {
      SplitCount(s[1..], sep);
      assert s == [s[0]] + s[1..];
      assert multiset(s) == multiset{s[0]} + multiset(s[1..]);
    }
  }

  /** Prefixing the first piece prefixes the join. */
  lemma JoinPrefixFirst(x: string, pieces: seq<string>, sep: char)
    requires |pieces| >= 1
    ensures Join([x + pieces[0]] + pieces[1..], sep) == x + Join(pieces, sep)
  {
  }

  /** Joining the pieces again gives back the string that was split. */
  lemma {:induction false} JoinSplit(s: string, sep: char)
    ensures Join(Split(s, sep), sep) == s
    decreases |s|
  {
    if |s| > 0 {
      var rest := Split(s[1..], sep);
      JoinSplit(s[1..], sep);
      if s[0] == sep {
        var pieces := [""] + rest;
        assert Split(s, sep) == pieces;
        assert pieces[1..] == rest;
        assert Join(pieces, sep) == "" + [sep] + Join(rest, sep);
        assert s == [sep] + s[1..];
      } else {
        assert Split(s, sep) == [[s[0]] + rest[0]] + rest[1..];
        JoinPrefixFirst([s[0]], rest, sep);
        assert s == [s[0]] + s[1..];
      }
    }
  }

  /** A string without the separator is a single piece. */
  lemma {:induction false} SplitWithoutSeparator(p: string, sep: char)
    requires sep !in p
    ensures Split(p, sep) == [p]
    decreases |p|
  {
    if |p| > 0 {
      assert p[0] in p;
      assert forall c :: c in p[1..] ==> c in p;
      SplitWithoutSeparator(p[1..], sep);
      assert [p[0]] + p[1..] == p;
    }
  }

  /** A separator-free prefix followed by the separator splits off as one piece. */
  lemma {:induction false} SplitAfterPiece(p: string, sep: char, t: string)
    requires sep !in p
    ensures Split(p + [sep] + t, sep) == [p] + Split(t, sep)
    decreases |p|
  {
    var s := p + [sep] + t;
    if |p| == 0 {
      assert s[0] == sep && s[1..] == t;
    } else {
      assert p[0] in p;
      assert forall c :: c in p[1..] ==> c in p;
      assert s[0] == p[0] && s[1..] == p[1..] + [sep] + t;
      SplitAfterPiece(p[1..], sep, t);
      assert [p[0]] + p[1..] == p;
    }
  }

  /** Splitting a join of separator-free pieces gives back the pieces. */
  lemma {:induction false} SplitJoin(pieces: seq<string>, sep: char)
    requires |pieces| >= 1
    requires forall p :: p in pieces ==> sep !in p
    ensures Split(Join(pieces, sep), sep) == pieces
    decreases |pieces|
  {
    assert pieces[0] in pieces;
    if |pieces| == 1 {
      SplitWithoutSeparator(pieces[0], sep);
    } else {
      assert forall p :: p in pieces[1..] ==> p in pieces;
      SplitJoin(pieces[1..], sep);
      SplitAfterPiece(pieces[0], sep, Join(pieces[1..], sep));
      assert [pieces[0]] + pieces[1..] == pieces;
    }
  }

  // ---------------------------------------------------------------------
  // list slicing with Python bounds
  // ---------------------------------------------------------------------

  /** How Python normalises one slice bound against a length `n`: a negative
      bound counts from the end, and the result is clamped to `0..n`. */
  function SliceBound(i: int, n: nat): (b: nat)
    ensures b <= n
    ensures 0 <= i <= n ==> b == i
    ensures -(n as int) <= i < 0 ==> b == n + i
    ensures i > n ==> b == n
    ensures i < -(n as int) ==> b == 0
  {
    if i < 0 then (if n + i < 0 then 0 else n + i)
    else if i > n then n
    else i
  }

  /** Python's `xs[start:stop]`. */
  function Slice<T>(xs: seq<T>, start: int, stop: int): (r: seq<T>)
    ensures var a, b := SliceBound(start, |xs|), SliceBound(stop, |xs|);
      |r| == (if a < b then b - a else 0) &&
      forall k :: 0 <= k < |r| ==> r[k] == xs[a + k]
  {
    var a, b := SliceBound(start, |xs|), SliceBound(stop, |xs|);
    if a < b then xs[a..b] else []
  }

  /** `xs[1:-1]`: the pieces strictly between the first and the last one,
      in their original order; nothing at all when there are two or fewer. */
  function DropEnds<T>(xs: seq<T>): (r: seq<T>)
    ensures |r| == if |xs| <= 2 then 0 else |xs| - 2
    ensures forall i :: 0 <= i < |r| ==> r[i] == xs[i + 1]
    ensures |xs| >= 2 ==> xs == [xs[0]] + r + [xs[|xs| - 1]]
  {
    Slice(xs, 1, -1)
  }

  // ---------------------------------------------------------------------
  // str.strip with a set of characters
  // ---------------------------------------------------------------------

  /** Python's `s.lstrip(cs)`: the longest suffix of `s` that does not start
      with a character of `cs`; everything removed belongs to `cs`. */
  function StripLeading(s: string, cs: set<char>): (r: string)
    ensures |r| <= |s| && r == s[|s| - |r|..]
    ensures forall k :: 0 <= k < |s| - |r| ==> s[k] in cs
    ensures r == [] || r[0] !in cs
    decreases |s|
  {
    if |s| > 0 && s[0] in cs then StripLeading(s[1..], cs) else s
  }

  /** Python's `s.rstrip(cs)`: the longest prefix of `s` that does not end
      with a character of `cs`; everything removed belongs to `cs`. */
  function StripTrailing(s: string, cs: set<char>): (r: string)
    ensures |r| <= |s| && r == s[..|r|]
    ensures forall k :: |r| <= k < |s| ==> s[k] in cs
    ensures r == [] || r[|r| - 1] !in cs
    decreases |s|
  {
    if |s| > 0 && s[|s| - 1] in cs then StripTrailing(s[..|s| - 1], cs) else s
  }

  /** How many characters `Strip` removes from the front of `s`. */
  function LeadingCount(s: string, cs: set<char>): (n: nat)
    ensures n <= |s|
  {
    |s| - |StripLeading(s, cs)|
  }

  /** Python's `s.strip(cs)`: `s` with every leading and trailing character
      of `cs` removed. The result is the contiguous piece of `s` that starts
      at `LeadingCount`, everything cut off on either side belongs to `cs`,
      and the result neither starts nor ends with a character of `cs`. */
  function Strip(s: string, cs: set<char>): (r: string)
    ensures LeadingCount(s, cs) + |r| <= |s|
    ensures r == s[LeadingCount(s, cs)..LeadingCount(s, cs) + |r|]
    ensures forall k :: 0 <= k < LeadingCount(s, cs) ==> s[k] in cs
    ensures forall k :: LeadingCount(s, cs) + |r| <= k < |s| ==> s[k] in cs
    ensures r == [] || (r[0] !in cs && r[|r| - 1] !in cs)
  {
    var left := StripLeading(s, cs);
    var r := StripTrailing(left, cs);
    PrefixOfSuffix(s, LeadingCount(s, cs), left, r, cs);
    r
  }

  /** A prefix `r` of the suffix `left` of `s` that starts at `n` is the
      piece of `s` from `n`, and what follows it in `s` is what follows it
      in `left`. */
  lemma PrefixOfSuffix(s: string, n: nat, left: string, r: string, cs: set<char>)
    requires n <= |s| && left == s[n..]
    requires |r| <= |left| && r == left[..|r|]
    requires forall k :: |r| <= k < |left| ==> left[k] in cs
    ensures n + |r| <= |s| && r == s[n..n + |r|]
    ensures forall k :: n + |r| <= k < |s| ==> s[k] in cs
    ensures r == [] || r[0] == left[0]
  {
    forall k | n + |r| <= k < |s| ensures s[k] in cs {
      assert s[k] == left[k - n];
    }
  }

  /** Stripping twice is stripping once. */
  lemma StripIdempotent(s: string, cs: set<char>)
    ensures Strip(Strip(s, cs), cs) == Strip(s, cs)
  {
    var r := Strip(s, cs);
    assert [] + r == r && r + [] == r;
    StripLeadingWrapped([], r, cs);
    StripTrailingWrapped(r, [], cs);
  }

  /** Leading wrapping characters in front of a core that does not start with
      one are exactly what `lstrip` removes. */
  lemma {:induction false} StripLeadingWrapped(pre: string, rest: string, cs: set<char>)
    requires forall k :: 0 <= k < |pre| ==> pre[k] in cs
    requires rest == [] || rest[0] !in cs
    ensures StripLeading(pre + rest, cs) == rest
    decreases |pre|
  {
    if |pre| > 0 {
      assert (pre + rest)[1..] == pre[1..] + rest;
      StripLeadingWrapped(pre[1..], rest, cs);
    }
  }

  /** Trailing wrapping characters behind a core that does not end with one
      are exactly what `rstrip` removes. */
  lemma {:induction false} StripTrailingWrapped(rest: string, post: string, cs: set<char>)
    requires forall k :: 0 <= k < |post| ==> post[k] in cs
    requires rest == [] || rest[|rest| - 1] !in cs
    ensures StripTrailing(rest + post, cs) == rest
    decreases |post|
  {
    if |post| > 0 {
      var s := rest + post;
      assert s[..|s| - 1] == rest + post[..|post| - 1];
      StripTrailingWrapped(rest, post[..|post| - 1], cs);
    } else {
      assert rest + post == rest;
    }
  }

  /** A core wrapped in any run of wrapping characters on either side is
      recovered exactly by `Strip`, provided the core itself neither starts
      nor ends with one. */
  lemma StripUnwraps(pre: string, core: string, post: string, cs: set<char>)
    requires forall k :: 0 <= k < |pre| ==> pre[k] in cs
    requires forall k :: 0 <= k < |post| ==> post[k] in cs
    requires core == [] || (core[0] !in cs && core[|core| - 1] !in cs)
    ensures Strip(pre + core + post, cs) == core
  {
    if core == [] {
      assert pre + core + post == pre + post;
      assert forall k :: 0 <= k < |post| ==> (post + [])[k] in cs;
      StripLeadingWrapped(pre + post, [], cs);
      assert pre + post + [] == pre + post;
    } else {
      assert pre + core + post == pre + (core + post);
      StripLeadingWrapped(pre, core + post, cs);
    }
    StripTrailingWrapped(core, post, cs);
  }

  // ---------------------------------------------------------------------
  // the listing parse of blueprint-summary.py
  // ---------------------------------------------------------------------

  /** Lines 77-80: the entries of the listing body, i.e. its lines with the
      first and the last line dropped. A body with `n` newlines gives
      `n - 1` entries (none when `n <= 1`), and no entry holds a newline. */
  function ListingEntries(body: string): (entries: seq<string>)
    ensures |entries| == if multiset(body)[Newline] <= 1 then 0 else multiset(body)[Newline] - 1
    ensures forall e :: e in entries ==> Newline !in e
  {
    var lines := Split(body, Newline);
    SplitCount(body, Newline);
    var entries := DropEnds(lines);
    assert forall e :: e in entries ==> e in lines;
    entries
  }

  /** Line 95: the blueprint ID of one entry. */
  function BlueprintId(entry: string): (id: string)
    ensures id == [] || (id[0] !in IdWrapping && id[|id| - 1] !in IdWrapping)
  {
    Strip(entry, IdWrapping)
  }

  /** The IDs of all entries, in listing order. */
  function BlueprintIds(entries: seq<string>): (ids: seq<string>)
    ensures |ids| == |entries|
    ensures forall i :: 0 <= i < |ids| ==> ids[i] == BlueprintId(entries[i])
  {
    seq(|entries|, i requires 0 <= i < |entries| => BlueprintId(entries[i]))
  }

  /** A body made of a first line, the entry lines and a final newline gives
      back exactly the entry lines. */
  lemma ListingRoundTrip(first: string, lines: seq<string>)
    requires Newline !in first
    requires forall l :: l in lines ==> Newline !in l
    ensures ListingEntries(Join([first] + lines + [""], Newline)) == lines
  {
    var pieces := [first] + lines + [""];
    assert forall p :: p in pieces ==> p == first || p in lines || p == "";
    SplitJoin(pieces, Newline);
    var entries := ListingEntries(Join(pieces, Newline));
    assert entries == DropEnds(pieces);
    assert |entries| == |lines|;
    assert forall i :: 0 <= i < |lines| ==> entries[i] == pieces[i + 1] == lines[i];
  }

  /** Without the final newline the last entry line is dropped as well: a
      first line, the entry lines and a last line with no newline after it
      give the entry lines only. */
  lemma LastLineDroppedWithoutNewline(first: string, lines: seq<string>, last: string)
    requires Newline !in first && Newline !in last
    requires forall l :: l in lines ==> Newline !in l
    ensures ListingEntries(Join([first] + lines + [last], Newline)) == lines
  {
    var pieces := [first] + lines + [last];
    assert forall p :: p in pieces ==> p == first || p in lines || p == last;
    SplitJoin(pieces, Newline);
    var entries := ListingEntries(Join(pieces, Newline));
    assert entries == DropEnds(pieces);
    assert |entries| == |lines|;
    assert forall i :: 0 <= i < |lines| ==> entries[i] == pieces[i + 1] == lines[i];
  }

  /** An ID is well formed for the listing when it fits on one line and
      does not itself start or end with a wrapping character. */
  predicate WellFormedId(id: string)
  {
    Newline !in id && (id == [] || (id[0] !in IdWrapping && id[|id| - 1] !in IdWrapping))
  }

  /** How the listing service wraps an ID on its line: `"/ID"`. */
  function Wrapped(id: string): string
  {
    "\"/" + id + "\""
  }

  /** Wrapping a well-formed ID keeps it on one line, and stripping the
      wrapped line gives the ID back. */
  lemma WrappedParses(id: string)
    requires WellFormedId(id)
    ensures Newline !in Wrapped(id)
    ensures BlueprintId(Wrapped(id)) == id
  {
    var w := Wrapped(id);
    assert w == ['"', '/'] + id + ['"'];
    forall k | 0 <= k < |w| ensures w[k] != Newline {
      if 2 <= k < 2 + |id| {
        assert w[k] == id[k - 2];
      }
    }
    StripUnwraps("\"/", id, "\"", IdWrapping);
  }

  /** The lines of a listing of `ids`, each ID wrapped. */
  function WrappedLines(ids: seq<string>): (lines: seq<string>)
    ensures |lines| == |ids|
    ensures forall i :: 0 <= i < |ids| ==> lines[i] == Wrapped(ids[i])
  {
    seq(|ids|, i requires 0 <= i < |ids| => Wrapped(ids[i]))
  }

  /** A listing of well-formed IDs, each wrapped as `"/ID"` on a line of its
      own after a first line, parses back to exactly those IDs in order. */
  lemma ListingOfWrappedIds(first: string, ids: seq<string>)
    requires Newline !in first
    requires forall id :: id in ids ==> WellFormedId(id)
    ensures BlueprintIds(ListingEntries(Join([first] + WrappedLines(ids) + [""], Newline))) == ids
  {
    var lines := WrappedLines(ids);
    forall i | 0 <= i < |ids| ensures Newline !in lines[i] && BlueprintId(lines[i]) == ids[i] {
      assert ids[i] in ids;
      WrappedParses(ids[i]);
    }
    assert forall l :: l in lines ==> Newline !in l;
    ListingRoundTrip(first, lines);
  }

  /** The first line is dropped whatever it holds: a body that carries an
      entry on every line, with no leading line of its own, loses the entry
      on its first line. */
  lemma FirstLineAlwaysDropped(lines: seq<string>)
    requires |lines| >= 1
    requires forall l :: l in lines ==> Newline !in l
    ensures ListingEntries(Join(lines + [""], Newline)) == lines[1..]
  {
    var first, rest := lines[0], lines[1..];
    assert first in lines;
    assert forall l :: l in rest ==> l in lines;
    assert lines == [first] + rest;
    ListingRoundTrip(first, rest);
  }
}
