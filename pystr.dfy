/**
 * The Python `str` operations the notifier relies on, restricted to ASCII:
 * `isspace`, `upper`, `lower`, `strip`, `split()` (on runs of
 * whitespace), `split(sep)`, `replace(old, "")`, `in` and `sep.join`.
 */
module PyStr {
  import opened Results

  // ---------------------------------------------------------------- characters

  /** `str.isspace` on ASCII: \t \n \v \f \r, the separators 0x1C-0x1F, and space. */
  predicate IsSpace(c: char) {
    9 <= c as int <= 13 || 28 <= c as int <= 32
  }

  predicate IsLowerLetter(c: char) {
    'a' <= c <= 'z'
  }

  predicate IsUpperLetter(c: char) {
    'A' <= c <= 'Z'
  }

  function UpperChar(c: char): (u: char)
    ensures !IsLowerLetter(u)
    ensures IsSpace(u) == IsSpace(c)
    ensures u == c || IsLowerLetter(c)
  {
    if IsLowerLetter(c) then (c as int - 32) as char else c
  }

  function LowerChar(c: char): (l: char)
    ensures !IsUpperLetter(l)
    ensures IsSpace(l) == IsSpace(c)
    ensures l == c || IsUpperLetter(c)
  {
    if IsUpperLetter(c) then (c as int + 32) as char else c
  }

  lemma {:induction false} CaseFolding(c: char)
    ensures LowerChar(UpperChar(c)) == LowerChar(c)
    ensures UpperChar(LowerChar(c)) == UpperChar(c)
    ensures UpperChar(UpperChar(c)) == UpperChar(c)
    ensures LowerChar(LowerChar(c)) == LowerChar(c)
  {
  }

  // ------------------------------------------------------------ upper / lower

  /** No lower-case letter occurs in `s`. */
  predicate IsUpperText(s: string) {
    forall i :: 0 <= i < |s| ==> !IsLowerLetter(s[i])
  }

  /** `str.upper`. */
  function Upper(s: string): (r: string)
    ensures |r| == |s| && IsUpperText(r)
    ensures forall i :: 0 <= i < |s| ==> r[i] == UpperChar(s[i])
  {
    seq(|s|, i requires 0 <= i < |s| => UpperChar(s[i]))
  }

  /** `str.lower`. */
  function Lower(s: string): (r: string)
    ensures |r| == |s|
    ensures forall i :: 0 <= i < |s| ==> r[i] == LowerChar(s[i])
  {
    seq(|s|, i requires 0 <= i < |s| => LowerChar(s[i]))
  }

  /** Upper-casing first does not change what `lower` sees: the case-insensitive view is preserved. */
  lemma {:induction false} LowerOfUpper(s: string)
    ensures Lower(Upper(s)) == Lower(s)
  {
    forall i | 0 <= i < |s| ensures Lower(Upper(s))[i] == Lower(s)[i] {
      CaseFolding(s[i]);
    }
  }

  /** `upper` brings in no character that is not a letter. */
  lemma {:induction false} UpperKeepsOut(s: string, c: char)
    requires c !in s && !IsUpperLetter(c)
    ensures c !in Upper(s)
  {
  }

  /** Text that is already upper case is left alone by `upper`. */
  lemma {:induction false} UpperOfUpperText(s: string)
    requires IsUpperText(s)
    ensures Upper(s) == s
  {
  }

  // ------------------------------------------------------------------- strip

  /** Neither end of `s` is whitespace. */
  predicate IsStripped(s: string) {
    s == [] || (!IsSpace(s[0]) && !IsSpace(s[|s| - 1]))
  }

  /** How many whitespace characters `s` starts with. */
  function LeadingSpace(s: string): (n: nat)
    ensures n <= |s|
    ensures forall k :: 0 <= k < n ==> IsSpace(s[k])
    ensures n < |s| ==> !IsSpace(s[n])
    decreases |s|
  {
    if s != [] && IsSpace(s[0]) then
      var n := LeadingSpace(s[1..]);
      assert forall k :: 1 <= k < n + 1 ==> s[k] == s[1..][k - 1];
      1 + n
    else 0
  }

  /** How many whitespace characters `s` ends with. */
  function TrailingSpace(s: string): (n: nat)
    ensures n <= |s|
    ensures forall k :: |s| - n <= k < |s| ==> IsSpace(s[k])
    ensures n < |s| ==> !IsSpace(s[|s| - n - 1])
    decreases |s|
  {
    if s != [] && IsSpace(s[|s| - 1]) then
      var n := TrailingSpace(s[..|s| - 1]);
      assert forall k :: |s| - 1 - n <= k < |s| - 1 ==> s[k] == s[..|s| - 1][k];
      1 + n
    else 0
  }

  /** `str.strip()`: `s` without its leading and trailing whitespace. */
  function Strip(s: string): (r: string)
    ensures IsStripped(r)
  {
    var t := s[LeadingSpace(s)..];
    t[..|t| - TrailingSpace(t)]
  }

  /** `strip` removes whitespace at both ends and nothing else: the result is
      the slice of the text after its leading whitespace, and everything
      outside that slice is whitespace. */
  lemma {:induction false} StripSpec(s: string)
    ensures var i := LeadingSpace(s);
      var r := Strip(s);
      && i + |r| <= |s| && r == s[i..i + |r|]
      && (forall k :: 0 <= k < i ==> IsSpace(s[k]))
      && (forall k :: i + |r| <= k < |s| ==> IsSpace(s[k]))
  {
    var i := LeadingSpace(s);
    var t := s[i..];
    var r := Strip(s);
    assert r == s[i..i + |r|];
    forall k | i + |r| <= k < |s| ensures IsSpace(s[k]) {
      assert s[k] == t[k - i];
    }
  }

  /** A character absent from the text is absent after stripping. */
  lemma {:induction false} StripKeepsOut(s: string, c: char)
    requires c !in s
    ensures c !in Strip(s)
  {
    var i := LeadingSpace(s);
    var t := s[i..];
    assert Strip(s) == t[..|Strip(s)|];
  }

  /** Text with no whitespace at either end is left alone. */
  lemma {:induction false} StripStripped(s: string)
    requires IsStripped(s)
    ensures Strip(s) == s
  {
    assert s[0..] == s;
  }

  lemma {:induction false} StripIdempotent(s: string)
    ensures Strip(Strip(s)) == Strip(s)
  {
    StripStripped(Strip(s));
  }

  // ------------------------------------------------------------- substrings

  /** `pat` occurs in `s` at index `i`. */
  predicate Occurs(s: string, pat: string, i: int) {
    0 <= i && i + |pat| <= |s| && s[i..i + |pat|] == pat
  }

  lemma {:induction false} OccursShift(s: string, pat: string, j: int)
    requires s != [] && j >= 1
    ensures Occurs(s, pat, j) <==> Occurs(s[1..], pat, j - 1)
  {
    if j + |pat| <= |s| {
      assert s[1..][j - 1..j - 1 + |pat|] == s[j..j + |pat|];
    }
  }

  /** `str.find`: the first index at which `pat` occurs in `s`, if any. */
  function Find(s: string, pat: string): (r: Option<nat>)
    requires pat != []
    ensures r.Some? ==> Occurs(s, pat, r.value)
    decreases |s|
  {
    if |s| < |pat| then None
    else if s[..|pat|] == pat then Some(0)
    else
      match Find(s[1..], pat)
      case None => None
      case Some(k) =>
        OccursShift(s, pat, k + 1);
        Some(k + 1)
  }

  /** `pat` occurs nowhere in `s` before index `n`. */
  predicate AbsentBefore(s: string, pat: string, n: int) {
    forall j :: 0 <= j < n ==> !Occurs(s, pat, j)
  }

  /** The index `find` gives is the first occurrence, and no answer means no occurrence. */
  lemma {:induction false} FindSpec(s: string, pat: string)
    requires pat != []
    ensures AbsentBefore(s, pat, if Find(s, pat).Some? then Find(s, pat).value else |s| + 1)
    decreases |s|
  {
    if |s| >= |pat| && s[..|pat|] != pat {
      FindSpec(s[1..], pat);
      forall j | 0 <= j && Occurs(s, pat, j) && (Find(s, pat).None? || j < Find(s, pat).value)
        ensures false
      {
        if j >= 1 {
          OccursShift(s, pat, j);
        }
      }
    }
  }

  /** The index of the first occurrence of `pat` in `s`, or `|s|` when there is none. */
  function Position(s: string, pat: string): (i: nat)
    requires pat != []
    ensures i <= |s|
    ensures i < |s| ==> Occurs(s, pat, i)
    ensures AbsentBefore(s, pat, if i < |s| then i else |s| + 1)
  {
    FindSpec(s, pat);
    match Find(s, pat)
    case None => |s|
    case Some(i) => i
  }

  /** `pat in s`. */
  predicate Contains(s: string, pat: string) {
    exists i :: 0 <= i <= |s| && Occurs(s, pat, i)
  }

  /** `in` and `find` agree: the pattern occurs exactly when `find` finds it. */
  lemma {:induction false} ContainsFind(s: string, pat: string)
    requires pat != []
    ensures Contains(s, pat) <==> Find(s, pat).Some?
  {
    FindSpec(s, pat);
    if Contains(s, pat) {
      var i :| 0 <= i <= |s| && Occurs(s, pat, i);
      assert !AbsentBefore(s, pat, i + 1);
    }
  }

  /** Every character of an occurring pattern is a character of the text. */
  lemma {:induction false} OccursChars(s: string, pat: string, i: int, c: char)
    requires Occurs(s, pat, i) && c in pat
    ensures c in s
  {
    var k :| 0 <= k < |pat| && pat[k] == c;
    assert s[i + k] == c;
  }

  // ------------------------------------------------------------ split / join

  /** `sep.join(parts)`. */
  function Join(parts: seq<string>, sep: string): string
    decreases |parts|
  {
    if |parts| == 0 then []
    else if |parts| == 1 then parts[0]
    else parts[0] + sep + Join(parts[1..], sep)
  }

  /** `s.split(sep)` for a non-empty separator: the text between the
      successive leftmost non-overlapping occurrences of `sep`. */
  function Split(s: string, sep: string): (parts: seq<string>)
    requires sep != []
    ensures |parts| >= 1
    ensures |parts| >= 2 <==> Find(s, sep).Some?
    decreases |s|
  {
    match Find(s, sep)
    case None => [s]
    case Some(i) => [s[..i]] + Split(s[i + |sep|..], sep)
  }

  /** Joining the pieces with the separator gives back the text. */
  lemma {:induction false} SplitJoin(s: string, sep: string)
    requires sep != []
    ensures Join(Split(s, sep), sep) == s
    decreases |s|
  {
    match Find(s, sep)
    case None =>
    case Some(i) =>
      var rest := s[i + |sep|..];
      SplitJoin(rest, sep);
      assert s == s[..i] + sep + rest;
  }

  /** Text before the first occurrence of `sep` does not contain `sep`. */
  lemma {:induction false} FindNoneBefore(s: string, sep: string, i: nat)
    requires sep != [] && i <= |s|
    requires AbsentBefore(s, sep, i)
    ensures Find(s[..i], sep).None?
  {
    if Find(s[..i], sep).Some? {
      OccursInPrefix(s, sep, i, Find(s[..i], sep).value);
    }
  }

  lemma {:induction false} OccursInPrefix(s: string, pat: string, i: nat, k: int)
    requires i <= |s| && Occurs(s[..i], pat, k)
    ensures Occurs(s, pat, k) && k + |pat| <= i
  {
    assert s[..i][k..k + |pat|] == s[k..k + |pat|];
  }

  /** The first piece is the longest prefix free of `sep`: after it comes `sep` or the end. */
  lemma {:induction false} SplitFirst(s: string, sep: string)
    requires sep != []
    ensures var p := Split(s, sep)[0];
      && |p| <= |s| && p == s[..|p|]
      && Find(p, sep).None?
      && (|p| == |s| || Find(s, sep) == Some(|p|))
  {
    match Find(s, sep)
    case None =>
    case Some(i) =>
      FindSpec(s, sep);
      FindNoneBefore(s, sep, i);
  }

  /** The first piece is the text up to the first separator, or all of it when there is none. */
  lemma {:induction false} SplitHead(s: string, sep: string)
    requires sep != []
    ensures Split(s, sep)[0] == s[..Position(s, sep)]
  {
  }

  /** After the first separator, the pieces are those of the text that follows it. */
  lemma {:induction false} SplitTail(s: string, sep: string)
    requires sep != [] && Find(s, sep).Some?
    ensures var i := Find(s, sep).value;
      i + |sep| <= |s| && Split(s, sep)[1..] == Split(s[i + |sep|..], sep)
  {
  }

  /** Searching for a single character finds something exactly when the character occurs. */
  lemma {:induction false} FindChar(s: string, c: char)
    ensures Find(s, [c]).Some? <==> c in s
    ensures forall i :: Occurs(s, [c], i) <==> 0 <= i < |s| && s[i] == c
  {
    forall i ensures Occurs(s, [c], i) <==> 0 <= i < |s| && s[i] == c {
      if 0 <= i < |s| {
        assert s[i..i + 1] == [s[i]];
      }
    }
    if c in s {
      var i :| 0 <= i < |s| && s[i] == c;
      assert Occurs(s, [c], i);
      FindSpec(s, [c]);
    }
  }

  /** Text without the separator character is one piece. */
  lemma {:induction false} SplitWithout(s: string, c: char)
    requires c !in s
    ensures Split(s, [c]) == [s]
  {
    FindChar(s, c);
  }

  /** The first separator character is found just after a text that lacks it. */
  lemma {:induction false} FindAfter(a: string, c: char, rest: string)
    requires c !in a
    ensures Find(a + [c] + rest, [c]) == Some(|a|)
    decreases |a|
  {
    var s := a + [c] + rest;
    FindCharStep(s, c);
    if a != [] {
      assert s[1..] == a[1..] + [c] + rest;
      FindAfter(a[1..], c, rest);
    }
  }

  /** Text up to the first separator character is the first piece; the rest is split on. */
  lemma {:induction false} SplitAtFirst(a: string, c: char, rest: string)
    requires c !in a
    ensures Split(a + [c] + rest, [c]) == [a] + Split(rest, [c])
  {
    var s := a + [c] + rest;
    FindAfter(a, c, rest);
    assert s[..|a|] == a;
    assert s[|a| + 1..] == rest;
  }

  /** Three lines joined by a separator they lack split back into those three lines. */
  lemma {:induction false} SplitThree(a: string, b: string, t: string, c: char)
    requires c !in a && c !in b && c !in t
    ensures Split(a + [c] + b + [c] + t, [c]) == [a, b, t]
  {
    assert a + [c] + b + [c] + t == a + [c] + (b + [c] + t);
    SplitAtFirst(a, c, b + [c] + t);
    SplitAtFirst(b, c, t);
    SplitWithout(t, c);
  }

  /** How many times the character `c` occurs in `s`. */
  function Count(s: string, c: char): (n: nat)
    ensures n <= |s|
    ensures n == 0 <==> c !in s
  {
    if s == [] then 0 else (if s[0] == c then 1 else 0) + Count(s[1..], c)
  }

  /** With a single-character separator, `split` yields one piece more than the separator count. */
  lemma {:induction false} CountSplit(s: string, c: char)
    ensures |Split(s, [c])| == Count(s, c) + 1
    decreases |s|
  {
    if s != [] {
      CountSplit(s[1..], c);
      SplitCharStep(s, c);
    }
  }

  /** Splitting on one character, one character at a time: a leading
      separator starts an empty piece; any other character joins the first piece. */
  lemma {:induction false} SplitCharStep(s: string, c: char)
    requires s != []
    ensures s[0] == c ==> Split(s, [c]) == [[]] + Split(s[1..], [c])
    ensures s[0] != c ==> |Split(s, [c])| == |Split(s[1..], [c])|
  {
    FindCharStep(s, c);
    if s[0] != c {
      match Find(s[1..], [c])
      case None =>
      case Some(k) =>
        assert s[k + 2..] == s[1..][k + 1..];
        assert Split(s, [c]) == [s[..k + 1]] + Split(s[k + 2..], [c]);
        assert Split(s[1..], [c]) == [s[1..][..k]] + Split(s[1..][k + 1..], [c]);
    }
  }

  /** Looking for one character: either it is the first one, or the search goes on one further. */
  lemma {:induction false} FindCharStep(s: string, c: char)
    requires s != []
    ensures s[0] == c ==> Find(s, [c]) == Some(0)
    ensures s[0] != c ==> Find(s, [c]) == match Find(s[1..], [c]) { case None => None case Some(k) => Some(k + 1) }
  {
    assert s[..1] == [s[0]];
  }

  // ---------------------------------------------------------------- replace

  /** `s.replace(pat, "")`: deletes the leftmost non-overlapping occurrences of `pat`. */
  function Erase(s: string, pat: string): (r: string)
    requires pat != []
    ensures |r| <= |s|
    decreases |s|
  {
    match Find(s, pat)
    case None => s
    case Some(i) => s[..i] + Erase(s[i + |pat|..], pat)
  }

  /** Deleting a pattern is joining the pieces around it with nothing in between. */
  lemma {:induction false} EraseIsJoinOfSplit(s: string, pat: string)
    requires pat != []
    ensures Erase(s, pat) == Join(Split(s, pat), [])
    decreases |s|
  {
    match Find(s, pat)
    case None =>
    case Some(i) =>
      EraseIsJoinOfSplit(s[i + |pat|..], pat);
  }

  /** Deleting a single character: every occurrence goes, everything else stays in order. */
  function DropChar(s: string, c: char): (r: string)
    ensures c !in r
    ensures forall d :: d in r ==> d in s
  {
    if s == [] then [] else (if s[0] == c then [] else [s[0]]) + DropChar(s[1..], c)
  }

  lemma {:induction false} EraseChar(s: string, c: char)
    ensures Erase(s, [c]) == DropChar(s, c)
    decreases |s|
  {
    if s != [] {
      EraseChar(s[1..], c);
      FindCharStep(s, c);
      if s[0] != c {
        match Find(s[1..], [c])
        case None =>
          assert s == [s[0]] + s[1..];
        case Some(k) =>
          assert s[k + 2..] == s[1..][k + 1..];
          assert s[..k + 1] == [s[0]] + s[1..][..k];
      }
    }
  }

  lemma {:induction false} DropCharEnds(s: string, c: char)
    requires s != [] && s[0] != c && s[|s| - 1] != c
    ensures DropChar(s, c) != []
    ensures DropChar(s, c)[0] == s[0]
    ensures DropChar(s, c)[|DropChar(s, c)| - 1] == s[|s| - 1]
    decreases |s|
  {
    if |s| > 1 {
      if s[1] == c {
        DropCharLast(s[1..], c);
      } else {
        DropCharEnds(s[1..], c);
      }
    }
  }

  lemma {:induction false} DropCharLast(s: string, c: char)
    requires s != [] && s[|s| - 1] != c
    ensures DropChar(s, c) != []
    ensures DropChar(s, c)[|DropChar(s, c)| - 1] == s[|s| - 1]
    decreases |s|
  {
    if |s| > 1 {
      DropCharLast(s[1..], c);
    }
  }

  lemma {:induction false} DropCharAbsent(s: string, c: char)
    requires c !in s
    ensures DropChar(s, c) == s
    decreases |s|
  {
    if s != [] {
      DropCharAbsent(s[1..], c);
      assert s == [s[0]] + s[1..];
    }
  }

  /** Deleting whitespace characters from stripped text leaves it stripped. */
  lemma {:induction false} DropSpaceStripped(s: string, c: char)
    requires IsStripped(s) && IsSpace(c)
    ensures IsStripped(DropChar(s, c))
  {
    if s != [] {
      DropCharEnds(s, c);
    }
  }

  // ------------------------------------------------------- split on whitespace

  /** A word of `str.split()`: non-empty, no whitespace. */
  predicate IsWord(w: string) {
    w != [] && forall i :: 0 <= i < |w| ==> !IsSpace(w[i])
  }

  /** Length of the word that starts `s`. */
  function WordLength(s: string): (n: nat)
    requires s != [] && !IsSpace(s[0])
    ensures 1 <= n <= |s| && IsWord(s[..n])
    ensures n == |s| || IsSpace(s[n])
  {
    if |s| == 1 || IsSpace(s[1]) then 1 else 1 + WordLength(s[1..])
  }

  /** `str.split()` with no argument: the maximal runs of non-whitespace, in order. */
  function Words(s: string): (ws: seq<string>)
    ensures forall k :: 0 <= k < |ws| ==> IsWord(ws[k])
    decreases |s|
  {
    if s == [] then []
    else if IsSpace(s[0]) then Words(s[1..])
    else
      var n := WordLength(s);
      [s[..n]] + Words(s[n..])
  }

  lemma {:induction false} WordLengthOfWord(w: string, t: string)
    requires IsWord(w) && (t == [] || IsSpace(t[0]))
    ensures WordLength(w + t) == |w|
    decreases |w|
  {
    if |w| > 1 {
      assert (w + t)[1..] == w[1..] + t;
      WordLengthOfWord(w[1..], t);
    }
  }

  /** A word followed by a space and more text: the word comes out first, then the words of the rest. */
  lemma {:induction false} WordsOfConcat(w: string, t: string)
    requires IsWord(w) && (t == [] || IsSpace(t[0]))
    ensures Words(w + t) == [w] + Words(t)
  {
    WordLengthOfWord(w, t);
    assert (w + t)[..|w|] == w;
    assert (w + t)[|w|..] == t;
  }

  /** Splitting words that were joined by single spaces gives the same words back. */
  lemma {:induction false} WordsOfJoin(ws: seq<string>)
    requires forall k :: 0 <= k < |ws| ==> IsWord(ws[k])
    ensures Words(Join(ws, " ")) == ws
    decreases |ws|
  {
    if |ws| == 1 {
      WordsOfConcat(ws[0], []);
      assert ws[0] + [] == ws[0];
    } else if |ws| > 1 {
      var rest := Join(ws[1..], " ");
      WordsOfJoin(ws[1..]);
      assert ws[0] + " " + rest == ws[0] + (" " + rest);
      WordsOfConcat(ws[0], " " + rest);
      assert (" " + rest)[1..] == rest;
    }
  }

  /** Words joined by single spaces have no whitespace but those spaces, and none at either end. */
  lemma {:induction false} JoinOfWords(ws: seq<string>, c: char)
    requires forall k :: 0 <= k < |ws| ==> IsWord(ws[k])
    requires IsSpace(c) && c != ' '
    ensures c !in Join(ws, " ")
    ensures IsStripped(Join(ws, " "))
    decreases |ws|
  {
    if |ws| > 1 {
      JoinOfWords(ws[1..], c);
    }
  }
}
