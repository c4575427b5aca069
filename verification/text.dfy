/** String operations the monitors and the SQL layer rely on: substring search (Python `in`),
    whitespace stripping and splitting (Python `str.strip()` / `str.split()`), ASCII lower-casing
    and the byte-wise ordering SQLite uses to compare TEXT values. */
module Text {

  // ---------------------------------------------------------------------------
  // Substring search
  // ---------------------------------------------------------------------------

  /** `sub` occurs in `s` starting at index `i`. */
  ghost predicate OccursAt(sub: string, s: string, i: int)
  {
    0 <= i && i + |sub| <= |s| && s[i..i + |sub|] == sub
  }

  /** Python's `sub in s`. */
  function Contains(s: string, sub: string): (r: bool)
    ensures r <==> exists i :: OccursAt(sub, s, i)
    decreases |s|
  {
    if |sub| > |s| then
      assert forall i :: !OccursAt(sub, s, i);
      false
    else if s[..|sub|] == sub then
      assert OccursAt(sub, s, 0);
      true
    else
      var rest := Contains(s[1..], sub);
      ShiftOccurrence(sub, s);
      rest
  }

  /** Occurrences in `s[1..]` are the occurrences in `s` after index 0. */
  lemma ShiftOccurrence(sub: string, s: string)
    requires |s| > 0
    requires !OccursAt(sub, s, 0)
    ensures (exists i :: OccursAt(sub, s[1..], i)) <==> (exists i :: OccursAt(sub, s, i))
  {
    forall i | OccursAt(sub, s[1..], i)
      ensures OccursAt(sub, s, i + 1)
    {
      assert s[1..][i..i + |sub|] == s[i + 1..i + 1 + |sub|];
    }
    forall i | OccursAt(sub, s, i)
      ensures OccursAt(sub, s[1..], i - 1)
    {
      assert i != 0;
      assert s[1..][i - 1..i - 1 + |sub|] == s[i..i + |sub|];
    }
  }

  lemma ContainsItself(s: string)
    ensures Contains(s, s)
  {
    assert OccursAt(s, s, 0);
  }

  /** A substring of a middle part is a substring of the whole. */
  lemma ContainsInMiddle(a: string, m: string, b: string, sub: string)
    requires Contains(m, sub)
    ensures Contains(a + m + b, sub)
  {
    var i :| OccursAt(sub, m, i);
    assert (a + m + b)[|a| + i..|a| + i + |sub|] == m[i..i + |sub|];
    assert OccursAt(sub, a + m + b, |a| + i);
  }

  // ---------------------------------------------------------------------------
  // Python whitespace, strip() and split()
  // ---------------------------------------------------------------------------

  /** The characters Python's `str.isspace()` accepts. */
  predicate IsSpace(c: char)
  {
    var n := c as int;
    (9 <= n <= 13) || (28 <= n <= 32) || n == 0x85 || n == 0xA0 || n == 0x1680
    || (0x2000 <= n <= 0x200A) || n == 0x2028 || n == 0x2029 || n == 0x202F
    || n == 0x205F || n == 0x3000
  }

  predicate NoSpace(s: string)
  {
    forall i :: 0 <= i < |s| ==> !IsSpace(s[i])
  }

  /** `s` without its leading whitespace. */
  function TrimStart(s: string): (r: string)
    ensures |r| <= |s| && r == s[|s| - |r|..]
    ensures |r| == 0 || !IsSpace(r[0])
    ensures forall i :: 0 <= i < |s| - |r| ==> IsSpace(s[i])
  {
    if |s| > 0 && IsSpace(s[0]) then
      var r := TrimStart(s[1..]);
      TrimStartStep(s, r);
      r
    else s
  }

  /** Dropping one more leading space keeps `r` a suffix with only whitespace before it. */
  lemma TrimStartStep(s: string, r: string)
    requires |s| > 0 && IsSpace(s[0])
    requires |r| <= |s| - 1 && r == s[1..][|s| - 1 - |r|..]
    requires forall i :: 0 <= i < |s| - 1 - |r| ==> IsSpace(s[1..][i])
    ensures r == s[|s| - |r|..]
    ensures forall i :: 0 <= i < |s| - |r| ==> IsSpace(s[i])
  {
    forall i | 0 < i < |s| - |r|
      ensures IsSpace(s[i])
    {
      assert s[i] == s[1..][i - 1];
    }
  }

  /** `s` without its trailing whitespace. */
  function TrimEnd(s: string): (r: string)
    ensures |r| <= |s| && r == s[..|r|]
    ensures |r| == 0 || !IsSpace(r[|r| - 1])
    ensures forall i :: |r| <= i < |s| ==> IsSpace(s[i])
  {
    if |s| > 0 && IsSpace(s[|s| - 1]) then TrimEnd(s[..|s| - 1]) else s
  }

  /** `r` is the piece of `s` that starts at index `k`. */
  ghost predicate SliceAt(r: string, s: string, k: int)
  {
    0 <= k && k + |r| <= |s| && r == s[k..k + |r|]
  }

  /** Neither end is whitespace. */
  predicate IsStripped(r: string)
  {
    |r| == 0 || (!IsSpace(r[0]) && !IsSpace(r[|r| - 1]))
  }

  /** Every character of `s` is whitespace. */
  predicate Blank(s: string)
  {
    forall i :: 0 <= i < |s| ==> IsSpace(s[i])
  }

  /** `r` is the piece of `s` at index `k`, and everything before and after it is whitespace. */
  ghost predicate PaddedAt(r: string, s: string, k: int)
  {
    SliceAt(r, s, k) && Blank(s[..k]) && Blank(s[k + |r|..])
  }

  /** Python's `s.strip()`: a contiguous piece of `s`, with whitespace only outside it. */
  function Strip(s: string): (r: string)
    ensures IsStripped(r)
    ensures exists k :: PaddedAt(r, s, k)
  {
    var t := TrimStart(s);
    var r := TrimEnd(t);
    StripSlice(s, t, r);
    r
  }

  /** Removing a blank prefix to get `t`, then a blank suffix to get `r`, leaves `r` padded
      by whitespace inside `s`. */
  lemma StripSlice(s: string, t: string, r: string)
    requires |t| <= |s| && t == s[|s| - |t|..]
    requires forall i :: 0 <= i < |s| - |t| ==> IsSpace(s[i])
    requires |r| <= |t| && r == t[..|r|]
    requires forall i :: |r| <= i < |t| ==> IsSpace(t[i])
    ensures PaddedAt(r, s, |s| - |t|)
  {
    var k := |s| - |t|;
    var before, after := s[..k], t[|r|..];
    assert SliceAt(r, s, k);
    assert forall i :: 0 <= i < |before| ==> before[i] == s[i];
    assert forall i :: 0 <= i < |after| ==> after[i] == t[|r| + i];
    assert s[k + |r|..] == after;
  }

  /** Leading whitespace is all `TrimStart` removes: after a blank prefix, a text that does not
      start with whitespace is kept whole. */
  lemma TrimStartOfPadded(a: string, t: string)
    requires Blank(a)
    requires |t| == 0 || !IsSpace(t[0])
    ensures TrimStart(a + t) == t
  {
    var s := a + t;
    var r := TrimStart(s);
    assert |r| == 0 || r[0] == s[|s| - |r|];
    assert |t| == 0 || t[0] == s[|a|];
    assert |r| == |t|;
  }

  /** Trailing whitespace is all `TrimEnd` removes. */
  lemma TrimEndOfPadded(t: string, b: string)
    requires Blank(b)
    requires |t| == 0 || !IsSpace(t[|t| - 1])
    ensures TrimEnd(t + b) == t
  {
    var s := t + b;
    var r := TrimEnd(s);
    assert |r| == 0 || r[|r| - 1] == s[|r| - 1];
    assert |t| == 0 || t[|t| - 1] == s[|t| - 1];
    assert |r| == |t|;
  }

  /** `strip()` recovers a stripped text from any whitespace padding around it, so `Strip` is
      the only function with the two properties of its contract. */
  lemma StripOfPadded(a: string, w: string, b: string)
    requires Blank(a) && Blank(b)
    requires IsStripped(w)
    ensures Strip(a + w + b) == w
  {
    if |w| == 0 {
      assert a + w + b == a + b;
      TrimStartOfPadded(a + b, "");
      assert a + b + "" == a + b;
    } else {
      assert a + w + b == a + (w + b);
      TrimStartOfPadded(a, w + b);
      TrimEndOfPadded(w, b);
    }
  }

  /** Stripping whitespace never removes a whitespace-free, non-empty substring. */
  lemma StripKeepsWord(s: string, w: string)
    requires |w| > 0 && NoSpace(w)
    requires Contains(s, w)
    ensures Contains(Strip(s), w)
  {
    TrimStartKeepsWord(s, w);
    TrimEndKeepsWord(TrimStart(s), w);
  }

  lemma TrimStartKeepsWord(s: string, w: string)
    requires |w| > 0 && NoSpace(w)
    requires Contains(s, w)
    ensures Contains(TrimStart(s), w)
  {
    var i :| OccursAt(w, s, i);
    var t := TrimStart(s);
    var k := |s| - |t|;
    OccurrenceStartsWord(w, s, i);
    assert k <= i;
    OccursInSuffix(w, s, i, k);
  }

  /** An occurrence of a non-empty whitespace-free word starts at a non-space character. */
  lemma OccurrenceStartsWord(w: string, s: string, i: int)
    requires |w| > 0 && NoSpace(w)
    requires OccursAt(w, s, i)
    ensures 0 <= i < |s| && !IsSpace(s[i])
  {
    assert s[i] == s[i..i + |w|][0];
  }

  /** An occurrence past index `k` is still there once the first `k` characters are dropped. */
  lemma OccursInSuffix(w: string, s: string, i: int, k: int)
    requires OccursAt(w, s, i) && 0 <= k <= i
    ensures OccursAt(w, s[k..], i - k)
  {
    assert s[k..][i - k..i - k + |w|] == s[i..i + |w|];
  }

  lemma TrimEndKeepsWord(s: string, w: string)
    requires |w| > 0 && NoSpace(w)
    requires Contains(s, w)
    ensures Contains(TrimEnd(s), w)
  {
    var i :| OccursAt(w, s, i);
    var r := TrimEnd(s);
    assert s[i + |w| - 1] == w[|w| - 1];
    assert i + |w| <= |r|;
    assert r[i..i + |w|] == s[i..i + |w|];
    assert OccursAt(w, r, i);
  }

  /** Length of the longest whitespace-free prefix of `s`. */
  function WordLength(s: string): (n: nat)
    ensures n <= |s|
    ensures NoSpace(s[..n])
    ensures n == |s| || IsSpace(s[n])
  {
    if |s| == 0 || IsSpace(s[0]) then 0
    else
      var m := WordLength(s[1..]);
      assert s[..1 + m] == [s[0]] + s[1..][..m];
      1 + m
  }

  /** The characters of `s` that are not whitespace, in order. */
  function NonSpace(s: string): string
  {
    if |s| == 0 then [] else (if IsSpace(s[0]) then [] else [s[0]]) + NonSpace(s[1..])
  }

  /** Concatenation of a sequence of strings. */
  function Concat(ws: seq<string>): string
  {
    if |ws| == 0 then [] else ws[0] + Concat(ws[1..])
  }

  lemma ConcatCons(w: string, ws: seq<string>)
    ensures Concat([w] + ws) == w + Concat(ws)
  {
    assert ([w] + ws)[1..] == ws;
  }

  lemma {:induction false} NonSpaceAppend(a: string, b: string)
    ensures NonSpace(a + b) == NonSpace(a) + NonSpace(b)
  {
    if |a| == 0 {
      assert a + b == b;
    } else {
      assert (a + b)[1..] == a[1..] + b;
      NonSpaceAppend(a[1..], b);
    }
  }

  lemma {:induction false} NonSpaceOfWord(w: string)
    requires NoSpace(w)
    ensures NonSpace(w) == w
  {
    if |w| > 0 {
      NonSpaceOfWord(w[1..]);
    }
  }

  lemma {:induction false} NonSpaceOfBlank(s: string)
    requires forall i :: 0 <= i < |s| ==> IsSpace(s[i])
    ensures NonSpace(s) == []
  {
    if |s| > 0 {
      NonSpaceOfBlank(s[1..]);
    }
  }

  /** A field of `split()`: non-empty and free of whitespace. */
  predicate IsWord(w: string)
  {
    |w| > 0 && NoSpace(w)
  }

  /** Python's `s.split()` with no argument: the maximal runs of non-whitespace characters. */
  function Split(s: string): seq<string>
    decreases |s|
  {
    var t := TrimStart(s);
    if |t| == 0 then []
    else
      var n := WordLength(t);
      [t[..n]] + Split(t[n..])
  }

  /** Every field of `split()` is a word. */
  lemma {:induction false} SplitFieldsAreWords(s: string)
    ensures forall i :: 0 <= i < |Split(s)| ==> IsWord(Split(s)[i])
    decreases |s|
  {
    var t := TrimStart(s);
    if |t| > 0 {
      var n := WordLength(t);
      SplitFieldsAreWords(t[n..]);
      WordsCons(t[..n], Split(t[n..]));
    }
  }

  /** A blank text has no fields. */
  lemma SplitOfBlank(s: string)
    requires Blank(s)
    ensures Split(s) == []
  {
    TrimStartOfPadded(s, "");
    assert s + "" == s;
  }

  /** Fields are maximal: a word preceded by whitespace and followed by whitespace (or by the
      end of the text) is exactly the next field. */
  lemma SplitOfField(a: string, w: string, rest: string)
    requires Blank(a) && IsWord(w)
    requires |rest| == 0 || IsSpace(rest[0])
    ensures Split(a + w + rest) == [w] + Split(rest)
  {
    assert a + w + rest == a + (w + rest);
    SplitAfterBlank(a, w + rest);
    SplitOfFirstField(w, rest);
  }

  lemma SplitOfFirstField(w: string, rest: string)
    requires IsWord(w)
    requires |rest| == 0 || IsSpace(rest[0])
    ensures Split(w + rest) == [w] + Split(rest)
  {
    var t := w + rest;
    assert t[0] == w[0];
    WordLengthOfWord(w, rest);
    assert t[..|w|] == w && t[|w|..] == rest;
  }

  /** A whitespace-free prefix that ends at whitespace (or at the end) is the whole first word. */
  lemma {:induction false} WordLengthOfWord(w: string, rest: string)
    requires NoSpace(w)
    requires |rest| == 0 || IsSpace(rest[0])
    ensures WordLength(w + rest) == |w|
  {
    if |w| > 0 {
      assert (w + rest)[1..] == w[1..] + rest;
      WordLengthOfWord(w[1..], rest);
    } else {
      assert w + rest == rest;
    }
  }

  /** Leading whitespace before a field changes nothing. */
  lemma SplitAfterBlank(a: string, t: string)
    requires Blank(a)
    requires |t| == 0 || !IsSpace(t[0])
    ensures Split(a + t) == Split(t)
  {
    TrimStartOfPadded(a, t);
  }

  /** Python's `" ".join(ws)`. */
  function JoinWords(ws: seq<string>): string
  {
    if |ws| == 0 then ""
    else if |ws| == 1 then ws[0]
    else ws[0] + (" " + JoinWords(ws[1..]))
  }

  /** `split()` takes apart what `" ".join` put together, as long as each piece is a word. */
  lemma {:induction false} SplitJoinWords(ws: seq<string>)
    requires forall i :: 0 <= i < |ws| ==> IsWord(ws[i])
    ensures Split(JoinWords(ws)) == ws
  {
    if |ws| == 0 {
      SplitJoinNone(ws);
    } else if |ws| == 1 {
      SplitJoinOne(ws);
    } else {
      SplitJoinWords(ws[1..]);
      SplitJoinStep(ws);
    }
  }

  lemma SplitJoinNone(ws: seq<string>)
    requires |ws| == 0
    ensures Split(JoinWords(ws)) == ws
  {
    SplitOfBlank("");
  }

  lemma SplitJoinOne(ws: seq<string>)
    requires |ws| == 1 && IsWord(ws[0])
    ensures Split(JoinWords(ws)) == ws
  {
    SplitOneWord(ws[0]);
  }

  lemma SplitJoinStep(ws: seq<string>)
    requires |ws| > 1 && IsWord(ws[0]) && IsWord(ws[1])
    requires Split(JoinWords(ws[1..])) == ws[1..]
    ensures Split(JoinWords(ws)) == ws
  {
    SplitJoinUnfold(ws);
    HeadAndTail(ws);
  }

  lemma HeadAndTail(ws: seq<string>)
    requires |ws| > 0
    ensures [ws[0]] + ws[1..] == ws
  {
  }

  /** One more word in front of the join is one more field in front of the split. */
  lemma SplitJoinUnfold(ws: seq<string>)
    requires |ws| > 1 && IsWord(ws[0]) && IsWord(ws[1])
    ensures Split(JoinWords(ws)) == [ws[0]] + Split(JoinWords(ws[1..]))
  {
    var tail := JoinWords(ws[1..]);
    JoinWordsStart(ws[1..]);
    SingleSpace();
    SplitWordSpace(ws[0], " ", tail);
  }

  lemma SplitOneWord(w: string)
    requires IsWord(w)
    ensures Split(w) == [w]
  {
    var nothing: string := [];
    SplitOfFirstField(w, nothing);
    assert w + nothing == w;
  }

  lemma SplitWordSpace(w: string, gap: string, tail: string)
    requires IsWord(w)
    requires |gap| > 0 && Blank(gap)
    requires |tail| == 0 || !IsSpace(tail[0])
    ensures Split(w + (gap + tail)) == [w] + Split(tail)
  {
    SplitOfFirstField(w, gap + tail);
    SplitAfterBlank(gap, tail);
  }

  /** Text found in one of the words is found in their join. */
  lemma {:induction false} ContainsWordOfJoin(ws: seq<string>, i: nat, sub: string)
    requires i < |ws| && Contains(ws[i], sub)
    ensures Contains(JoinWords(ws), sub)
  {
    if |ws| > 1 {
      var tail := JoinWords(ws[1..]);
      assert JoinWords(ws) == ws[0] + (" " + tail);
      if i == 0 {
        ContainsInMiddle([], ws[0], " " + tail, sub);
        assert [] + ws[0] + (" " + tail) == ws[0] + (" " + tail);
      } else {
        assert ws[1..][i - 1] == ws[i];
        ContainsWordOfJoin(ws[1..], i - 1, sub);
        ContainsInMiddle(ws[0] + " ", tail, [], sub);
        assert ws[0] + " " + tail + [] == ws[0] + (" " + tail);
      }
    }
  }

  lemma SingleSpace()
    ensures Blank(" ")
  {
    var c := ' ';
    assert c as int == 32;
  }

  /** Joined words start with the first word's first character. */
  lemma JoinWordsStart(ws: seq<string>)
    requires |ws| > 0 && IsWord(ws[0])
    ensures |JoinWords(ws)| > 0 && JoinWords(ws)[0] == ws[0][0]
  {
  }

  lemma WordsCons(w: string, ws: seq<string>)
    requires IsWord(w)
    requires forall i :: 0 <= i < |ws| ==> IsWord(ws[i])
    ensures forall i :: 0 <= i < |[w] + ws| ==> IsWord(([w] + ws)[i])
  {
  }

  /** The fields of `Split(s)` hold exactly the non-whitespace characters of `s`, in order:
      splitting loses nothing but whitespace. */
  lemma {:induction false} SplitKeepsText(s: string)
    ensures Concat(Split(s)) == NonSpace(s)
    decreases |s|
  {
    var t := TrimStart(s);
    NonSpaceTrimStart(s);
    if |t| > 0 {
      var n := WordLength(t);
      NonSpaceWord(t);
      SplitKeepsText(t[n..]);
      assert Split(s) == [t[..n]] + Split(t[n..]);
      ConcatCons(t[..n], Split(t[n..]));
    }
  }

  lemma NonSpaceTrimStart(s: string)
    ensures NonSpace(TrimStart(s)) == NonSpace(s)
  {
    var t := TrimStart(s);
    var k := |s| - |t|;
    var blank := s[..k];
    assert forall i :: 0 <= i < k ==> blank[i] == s[i];
    NonSpaceOfBlank(blank);
    assert s == blank + t;
    NonSpaceAppend(blank, t);
  }

  lemma NonSpaceWord(t: string)
    ensures NonSpace(t) == t[..WordLength(t)] + NonSpace(t[WordLength(t)..])
  {
    var n := WordLength(t);
    assert t == t[..n] + t[n..];
    NonSpaceAppend(t[..n], t[n..]);
    NonSpaceOfWord(t[..n]);
  }

  // ---------------------------------------------------------------------------
  // Case and ordering
  // ---------------------------------------------------------------------------

  function LowerChar(c: char): char
  {
    if 'A' <= c <= 'Z' then (c as int + 32) as char else c
  }

  /** Python's `s.lower()` restricted to ASCII letters. */
  function Lower(s: string): (r: string)
    ensures |r| == |s|
    ensures forall i :: 0 <= i < |s| ==> r[i] == LowerChar(s[i])
  {
    if |s| == 0 then [] else [LowerChar(s[0])] + Lower(s[1..])
  }

  /** Lower-casing twice changes nothing more, and leaves no upper-case ASCII letter. */
  lemma LowerIdempotent(s: string)
    ensures Lower(Lower(s)) == Lower(s)
    ensures forall i :: 0 <= i < |s| ==> !('A' <= Lower(s)[i] <= 'Z')
  {
  }

  /** SQLite's BINARY comparison of TEXT values: lexicographic by code point, a proper
      prefix sorting first. */
  predicate Less(a: string, b: string)
  {
    if |a| == 0 then |b| > 0
    else if |b| == 0 then false
    else a[0] < b[0] || (a[0] == b[0] && Less(a[1..], b[1..]))
  }

  lemma {:induction false} LessIrreflexive(a: string)
    ensures !Less(a, a)
  {
    if |a| > 0 {
      LessIrreflexive(a[1..]);
    }
  }

  lemma {:induction false} LessTransitive(a: string, b: string, c: string)
    requires Less(a, b) && Less(b, c)
    ensures Less(a, c)
  {
    if |a| > 0 && |b| > 0 && |c| > 0 && a[0] == b[0] && b[0] == c[0] {
      LessTransitive(a[1..], b[1..], c[1..]);
    }
  }

  lemma {:induction false} LessTotal(a: string, b: string)
    ensures a == b || Less(a, b) || Less(b, a)
  {
    if |a| > 0 && |b| > 0 && a[0] == b[0] {
      LessTotal(a[1..], b[1..]);
      if a[1..] == b[1..] {
        assert a == [a[0]] + a[1..] && b == [b[0]] + b[1..];
      }
    }
  }

  lemma {:induction false} LessAsymmetric(a: string, b: string)
    requires Less(a, b)
    ensures !Less(b, a)
  {
    if |a| > 0 && |b| > 0 && a[0] == b[0] {
      LessAsymmetric(a[1..], b[1..]);
    }
  }
}
