/** Deriving a resource path from the Pascal remainder of a function name and the
    names of the function's arguments, and the casing it relies on.
 */
module Surface {
  import opened Client
  import opened Text

  // ---- Words -------------------------------------------------------------

  function WordEnd(s: string, i: nat): (n: nat)
    requires i <= |s|
    ensures i <= n <= |s|
    ensures n < |s| ==> IsUpper(s[n])
    ensures forall k | i <= k < n :: !IsUpper(s[k])
    decreases |s| - i
  {
    if i == |s| || IsUpper(s[i]) then i else WordEnd(s, i + 1)
  }

  /** A word: something, and capitals only in front. */
  predicate IsWord(s: string) {
    s != [] && forall k | 1 <= k < |s| :: !IsUpper(s[k])
  }

  predicate IsCapital(s: string) {
    s != [] && IsUpper(s[0])
  }

  /** Pascal text cut before each capital. */
  function Words(s: string): (words: seq<string>)
    ensures forall i | 0 <= i < |words| :: IsWord(words[i])
    ensures forall i | 1 <= i < |words| :: IsCapital(words[i])
    ensures s != [] ==> words != [] && words[0] != [] && words[0][0] == s[0]
    ensures Concat(words) == s
  {
    if s == [] then []
    else
      var n := WordEnd(s, 1);
      [s[..n]] + Words(s[n..])
  }

  method SplitWords(pascal: string) returns (words: seq<string>)
    ensures words == Words(pascal)
  {
    hide Words;
    words := [];
    var start: nat := 0;
    assert pascal[0..] == pascal;
    for i := 0 to |pascal|
      invariant start <= i && (i > 0 ==> start < i)
      invariant forall k | start < k < i :: !IsUpper(pascal[k])
      invariant words + Words(pascal[start..]) == Words(pascal)
    {
      if i > 0 && IsUpper(pascal[i]) {
        FirstWord(pascal, start, i);
        assert words + ([pascal[start..i]] + Words(pascal[i..]))
            == words + [pascal[start..i]] + Words(pascal[i..]);
        words := words + [pascal[start..i]];
        start := i;
      }
    }
    if start < |pascal| {
      FirstWord(pascal, start, |pascal|);
      NoWords(pascal[|pascal|..]);
      assert pascal[start..|pascal|] == pascal[start..];
      words := words + [pascal[start..]];
    } else {
      NoWords(pascal[start..]);
    }
  }

  lemma NoWords(s: string)
    requires s == []
    ensures Words(s) == []
  {
  }

  lemma WordEndIs(s: string, i: nat, n: nat)
    requires i <= n <= |s|
    requires forall k | i <= k < n :: !IsUpper(s[k])
    requires n < |s| ==> IsUpper(s[n])
    ensures WordEnd(s, i) == n
    decreases n - i
  {
    if i < n { WordEndIs(s, i + 1, n); }
  }

  lemma FirstWord(s: string, from: nat, to: nat)
    requires from < to <= |s|
    requires forall k | from < k < to :: !IsUpper(s[k])
    requires to < |s| ==> IsUpper(s[to])
    ensures Words(s[from..]) == [s[from..to]] + Words(s[to..])
  {
    var t := s[from..];
    WordEndIs(t, 1, to - from);
    assert t[..to - from] == s[from..to] && t[to - from..] == s[to..];
  }

  function Lower(s: string): (r: string)
    ensures |r| == |s| && forall i | 0 <= i < |s| :: r[i] == LowerChar(s[i])
    ensures forall i | 0 <= i < |r| :: !IsUpper(r[i])
  {
    seq(|s|, i requires 0 <= i < |s| => LowerChar(s[i]))
  }

  function Capital(s: string): string {
    if s == [] then [] else [UpperChar(s[0])] + s[1..]
  }

  function Each(words: seq<string>, f: string -> string): (r: seq<string>)
    ensures |r| == |words| && forall i | 0 <= i < |r| :: r[i] == f(words[i])
  {
    seq(|words|, i requires 0 <= i < |words| => f(words[i]))
  }

  // ---- Casing ------------------------------------------------------------

  function CasedTail(s: string, sep: char): string {
    if s == [] then []
    else (if IsUpper(s[0]) then [sep, LowerChar(s[0])] else [s[0]]) + CasedTail(s[1..], sep)
  }

  /** Lower case, with a separator where a capital was, except in front. */
  function Cased(pascal: string, sep: char): string {
    if pascal == [] then [] else [LowerChar(pascal[0])] + CasedTail(pascal[1..], sep)
  }

  function Kebabbed(pascal: string): string {
    Cased(pascal, '-')
  }

  function Snaked(name: string): string {
    Cased(name, '_')
  }

  /** The loop of `kebab` and of `snake`, which differ in the separator alone. */
  method Separate(pascal: string, sep: char) returns (out: string)
    ensures out == Cased(pascal, sep)
  {
    out := [];
    for i := 0 to |pascal|
      invariant i == 0 ==> out == []
      invariant i > 0 ==> out + CasedTail(pascal[i..], sep) == Cased(pascal, sep)
    {
      var c := pascal[i];
      assert pascal[i..][1..] == pascal[i + 1..];
      if IsUpper(c) {
        if i > 0 {
          out := out + [sep];
        }
        out := out + [LowerChar(c)];
      } else {
        out := out + [c];
      }
    }
  }

  method Kebab(pascal: string) returns (out: string)
    ensures out == Kebabbed(pascal)
  {
    out := Separate(pascal, '-');
  }

  /** The generator's `pascal`: words between `_` and `-`, capitalised and joined. */
  function Pascal(name: string): string {
    Concat(Each(Split(name, {'_', '-'}), Capital))
  }

  lemma PascalAtSeparator(front: string, sep: char, rest: string)
    requires FreeOf(front, {'_', '-'}) && sep in {'_', '-'}
    ensures Pascal(front + [sep] + rest) == Capital(front) + Pascal(rest)
  {
    var parts := Split(rest, {'_', '-'});
    SplitAfter(front, sep, rest, {'_', '-'});
    var capitals := Each(parts, Capital);
    assert Each([front] + parts, Capital) == [Capital(front)] + capitals;
    assert ([Capital(front)] + capitals)[1..] == capitals;
  }

  lemma PascalOfOne(front: string)
    requires FreeOf(front, {'_', '-'})
    ensures Pascal(front) == Capital(front)
  {
    SplitLast(front, {'_', '-'});
    OneWord(front);
  }

  lemma FreeStep(front: string, s: string)
    requires s != [] && FreeOf(front, {'_', '-'}) && FreeOf(s, {'_', '-'})
    ensures FreeOf(s[1..], {'_', '-'}) && FreeOf(front + [s[0]], {'_', '-'})
    ensures IsUpper(s[0]) ==> FreeOf([LowerChar(s[0])], {'_', '-'})
  {
    assert forall i | 0 <= i < |s[1..]| :: s[1..][i] == s[i + 1];
  }

  lemma CapitalOfOne(c: char)
    requires IsUpper(c)
    ensures Capital([LowerChar(c)]) == [c]
  {
  }

  lemma CasedTailGoesOn(front: string, s: string, sep: char)
    requires s != []
    ensures front + CasedTail(s, sep) ==
      if IsUpper(s[0]) then front + [sep] + ([LowerChar(s[0])] + CasedTail(s[1..], sep))
      else front + [s[0]] + CasedTail(s[1..], sep)
    ensures front != [] ==> Capital(front + [s[0]]) == Capital(front) + [s[0]]
  {
  }

  lemma PascalOfTailStep(front: string, s: string, sep: char)
    requires s != [] && front != []
    requires FreeOf(front, {'_', '-'}) && sep in {'_', '-'}
    requires if IsUpper(s[0])
      then Pascal([LowerChar(s[0])] + CasedTail(s[1..], sep)) == Capital([LowerChar(s[0])]) + s[1..]
      else Pascal(front + [s[0]] + CasedTail(s[1..], sep)) == Capital(front + [s[0]]) + s[1..]
    ensures Pascal(front + CasedTail(s, sep)) == Capital(front) + s
  {
    hide Pascal, Capital, FreeOf, CasedTail;
    var tail := CasedTail(s[1..], sep);
    CasedTailGoesOn(front, s, sep);
    assert s == [s[0]] + s[1..];
    if IsUpper(s[0]) {
      CapitalOfOne(s[0]);
      PascalAtSeparator(front, sep, [LowerChar(s[0])] + tail);
    } else {
      assert Capital(front) + [s[0]] + s[1..] == Capital(front) + s;
    }
  }

  lemma {:induction false} PascalOfCasedTail(front: string, s: string, sep: char)
    requires front != [] && FreeOf(front, {'_', '-'}) && FreeOf(s, {'_', '-'}) && sep in {'_', '-'}
    ensures Pascal(front + CasedTail(s, sep)) == Capital(front) + s
    decreases |s|
  {
    hide Pascal, Capital, FreeOf;
    if s == [] {
      assert front + CasedTail(s, sep) == front;
      PascalOfOne(front);
    } else {
      hide CasedTail;
      FreeStep(front, s);
      if IsUpper(s[0]) {
        PascalOfCasedTail([LowerChar(s[0])], s[1..], sep);
      } else {
        PascalOfCasedTail(front + [s[0]], s[1..], sep);
      }
      PascalOfTailStep(front, s, sep);
    }
  }

  lemma OneWord(word: string)
    ensures Each([word], Capital) == [Capital(word)]
    ensures Concat([Capital(word)]) == Capital(word)
  {
    assert [Capital(word)][1..] == [];
    assert Concat([Capital(word)]) == Capital(word) + Concat([]);
  }

  /** Kebab and snake text turn back into the Pascal text they were made from. */
  lemma PascalUndoesCase(s: string, sep: char)
    requires s != [] ==> !IsLower(s[0])
    requires FreeOf(s, {'_', '-'}) && sep in {'_', '-'}
    ensures Pascal(Cased(s, sep)) == s
  {
    if s == [] {
      OneWord("");
      assert Split("", {'_', '-'}) == [""];
    } else {
      hide Pascal, CasedTail;
      assert forall i | 0 <= i < |s[1..]| :: s[1..][i] == s[i + 1];
      assert s[0] !in {'_', '-'};
      PascalOfCasedTail([LowerChar(s[0])], s[1..], sep);
      assert s == [s[0]] + s[1..];
    }
  }

  // ---- What cased text looks like ----------------------------------------

  /** A character that can part cased words. */
  predicate IsSeparator(c: char) {
    !IsUpper(c) && !IsLower(c)
  }

  predicate NoCapital(s: string) {
    forall i | 0 <= i < |s| :: !IsUpper(s[i])
  }

  lemma {:induction false} TailOfWord(s: string, n: nat, sep: char)
    requires n <= |s| && NoCapital(s[..n])
    ensures CasedTail(s, sep) == Lower(s[..n]) + CasedTail(s[n..], sep)
  {
    if n == 0 {
      assert s[0..] == s;
    } else {
      var head := s[..n];
      assert s[1..][..n - 1] == head[1..] && s[1..][n - 1..] == s[n..];
      assert !IsUpper(head[0]);
      TailOfWord(s[1..], n - 1, sep);
      assert Lower(head) == [s[0]] + Lower(head[1..]);
    }
  }

  lemma CasedFromWord(s: string, n: nat, sep: char)
    requires 1 <= n <= |s| && NoCapital(s[1..n])
    ensures Cased(s, sep) == Lower(s[..n]) + CasedTail(s[n..], sep)
  {
    hide CasedTail, Lower, NoCapital;
    var word, tail := s[..n], s[1..];
    assert tail[..n - 1] == s[1..n] == word[1..] && tail[n - 1..] == s[n..];
    TailOfWord(tail, n - 1, sep);
    LowerOfCons(word);
    Associates([LowerChar(s[0])], Lower(word[1..]), CasedTail(s[n..], sep));
  }

  lemma CasedFirstWord(s: string, sep: char)
    requires s != []
    ensures var n := WordEnd(s, 1);
      Cased(s, sep) == Lower(s[..n]) + if n == |s| then [] else [sep] + Cased(s[n..], sep)
  {
    hide CasedTail, Lower, Cased, NoCapital, WordEnd;
    var n := WordEnd(s, 1);
    WordHasNoCapital(s);
    CasedFromWord(s, n, sep);
    TailFromCapital(s[n..], sep);
    if n == |s| { assert Lower(s[..n]) + [] == Lower(s[..n]); }
  }

  lemma WordHasNoCapital(s: string)
    requires s != []
    ensures var n := WordEnd(s, 1);
      1 <= n <= |s| && NoCapital(s[1..n]) && (n < |s| ==> IsUpper(s[n..][0]))
  {
  }

  lemma TailFromCapital(s: string, sep: char)
    requires s != [] ==> IsUpper(s[0])
    ensures CasedTail(s, sep) == if s == [] then [] else [sep] + Cased(s, sep)
  {
  }

  lemma LowerOfCons(s: string)
    requires s != []
    ensures Lower(s) == [LowerChar(s[0])] + Lower(s[1..])
  {
  }

  lemma LowerAdds(a: string, b: string)
    ensures Lower(a + b) == Lower(a) + Lower(b)
  {
  }

  lemma LowerIsFree(s: string, sep: char)
    requires IsSeparator(sep) && Free(s, sep)
    ensures FreeOf(Lower(s), {sep})
  {
  }

  /** Cased text parts at its separator into the words of the text, in lower case. */
  lemma {:induction false} CasedIsTheWords(s: string, sep: char)
    requires s != [] && IsSeparator(sep) && Free(s, sep)
    ensures Split(Cased(s, sep), {sep}) == Each(Words(s), Lower)
    decreases |s|
  {
    hide Cased, Split, Lower;
    var n := WordEnd(s, 1);
    var word, rest := s[..n], s[n..];
    CasedFirstWord(s, sep);
    LowerIsFree(word, sep);
    assert Words(s) == [word] + Words(rest);
    assert Each(Words(s), Lower) == [Lower(word)] + Each(Words(rest), Lower);
    if n == |s| {
      NoWords(rest);
      SplitLast(Lower(word), {sep});
      assert Lower(word) + [] == Lower(word);
    } else {
      CasedIsTheWords(rest, sep);
      SplitAfter(Lower(word), sep, Cased(rest, sep), {sep});
      assert Lower(word) + ([sep] + Cased(rest, sep)) == Lower(word) + [sep] + Cased(rest, sep);
    }
  }

  lemma {:induction false} CasedHasNoCapital(s: string, sep: char)
    requires !IsUpper(sep)
    ensures NoCapital(CasedTail(s, sep)) && NoCapital(Cased(s, sep))
  {
    if s != [] { CasedHasNoCapital(s[1..], sep); }
  }

  /** Kebab text has no capital and parts at its dashes into the words, in lower case. */
  lemma KebabIsTheWords(pascal: string)
    requires pascal != [] && Free(pascal, '-')
    ensures Split(Kebabbed(pascal), {'-'}) == Each(Words(pascal), Lower)
    ensures NoCapital(Kebabbed(pascal))
  {
    CasedIsTheWords(pascal, '-');
    CasedHasNoCapital(pascal, '-');
  }

  /** And snake text at its underscores. */
  lemma SnakeIsTheWords(name: string)
    requires name != [] && Free(name, '_')
    ensures Split(Snaked(name), {'_'}) == Each(Words(name), Lower)
    ensures NoCapital(Snaked(name))
  {
    CasedIsTheWords(name, '_');
    CasedHasNoCapital(name, '_');
  }

  /** Text without capitals passes through as it is. */
  lemma LowerPassesThrough(s: string, sep: char)
    requires NoCapital(s)
    ensures Cased(s, sep) == s
  {
    if s != [] {
      assert s[1..1] == [] && s[1..][|s| - 1..] == [] && s[1..][..|s| - 1] == s[1..];
      assert !IsUpper(s[0]) && forall i | 0 <= i < |s[1..]| :: s[1..][i] == s[i + 1];
      TailOfWord(s[1..], |s| - 1, sep);
      assert Lower(s[1..]) == s[1..];
    }
  }

  /** Words put together are cut apart again. */
  lemma {:induction false} WordsOfConcat(words: seq<string>)
    requires forall i | 0 <= i < |words| :: IsWord(words[i])
    requires forall i | 1 <= i < |words| :: IsCapital(words[i])
    ensures Words(Concat(words)) == words
  {
    if words != [] {
      var head, tail := words[0], Concat(words[1..]);
      var s := head + tail;
      WordsOfConcat(words[1..]);
      HeadOfConcat(words[1..]);
      assert forall k | 0 <= k < |head| :: s[k] == head[k];
      FirstWord(s, 0, |head|);
      assert s[0..] == s && s[0..|head|] == head && s[|head|..] == tail;
      assert words == [head] + words[1..];
    }
  }

  lemma HeadOfConcat(words: seq<string>)
    ensures words != [] && words[0] != [] ==> Concat(words) != [] && Concat(words)[0] == words[0][0]
    ensures words == [] ==> Concat(words) == []
  {
  }

  // ---- Arguments ---------------------------------------------------------

  function WordsOfParts(parts: seq<string>): seq<string> {
    if parts == [] then [] else Each(Words(parts[0]), Lower) + WordsOfParts(parts[1..])
  }

  /** An argument name as lower-case words, dashes and capitals both parting them. */
  function ArgWordsOf(arg: string): seq<string> {
    WordsOfParts(Split(arg, {'-'}))
  }

  method ArgWords(arg: string) returns (words: seq<string>)
    ensures words == ArgWordsOf(arg)
  {
    words := [];
    var parts := Split(arg, {'-'});
    for i := 0 to |parts|
      invariant words + WordsOfParts(parts[i..]) == WordsOfParts(parts)
    {
      hide Split, Words;
      assert parts[i..][0] == parts[i] && parts[i..][1..] == parts[i + 1..];
      var lowered := LowerWords(parts[i]);
      assert words + (lowered + WordsOfParts(parts[i + 1..])) == words + lowered + WordsOfParts(parts[i + 1..]);
      words := words + lowered;
    }
  }

  method LowerWords(part: string) returns (words: seq<string>)
    ensures words == Each(Words(part), Lower)
  {
    hide Words, Lower;
    words := [];
    var found := SplitWords(part);
    for j := 0 to |found|
      invariant words == Each(found, Lower)[..j]
    {
      assert Each(found, Lower)[..j + 1] == Each(found, Lower)[..j] + [Lower(found[j])];
      words := words + [Lower(found[j])];
    }
  }

  /** The camelCase name of an argument's placeholder. */
  function PlaceholderName(arg: string): string {
    var words := ArgWordsOf(arg);
    if words == [] then [] else words[0] + Concat(Each(words[1..], Capital))
  }

  lemma WordsOfOne(part: string)
    ensures WordsOfParts([part]) == Each(Words(part), Lower)
  {
    assert [part][1..] == [] && WordsOfParts([part]) == Each(Words(part), Lower) + WordsOfParts([]);
  }

  lemma LowerWord(word: string)
    requires word != [] && NoCapital(word)
    ensures Each(Words(word), Lower) == [word]
  {
    FirstWord(word, 0, |word|);
    NoWords(word[|word|..]);
    assert word[0..] == word && word[0..|word|] == word;
    assert Words(word) == [word] && Lower(word) == word;
  }

  lemma {:induction false} LowerParts(parts: seq<string>)
    requires forall i | 0 <= i < |parts| :: parts[i] != [] && NoCapital(parts[i])
    ensures WordsOfParts(parts) == parts
  {
    if parts != [] {
      LowerWord(parts[0]);
      LowerParts(parts[1..]);
      assert parts == [parts[0]] + parts[1..];
    }
  }

  /** Both of the client's spellings of an argument, with capitals and with dashes, have the
      words of the capitalised one. */
  lemma BothSpellingsAreOne(name: string)
    requires name != [] && Free(name, '-')
    ensures ArgWordsOf(name) == Each(Words(name), Lower)
    ensures ArgWordsOf(Kebabbed(name)) == ArgWordsOf(name)
    ensures PlaceholderName(Kebabbed(name)) == PlaceholderName(name)
  {
    hide Kebabbed, Words;
    SplitLast(name, {'-'});
    WordsOfOne(name);
    KebabIsTheWords(name);
    LowerParts(Each(Words(name), Lower));
  }

  predicate AreLowerWords(words: seq<string>) {
    forall i | 0 <= i < |words| :: words[i] != [] && NoCapital(words[i])
  }

  /** The words of any argument are in lower case, and spell it but for its dashes. */
  lemma {:induction false} PartsAreSpelt(parts: seq<string>)
    ensures AreLowerWords(WordsOfParts(parts)) && Concat(WordsOfParts(parts)) == Lower(Concat(parts))
  {
    if parts != [] {
      LowerEach(parts[0]);
      hide Words, Lower, NoCapital;
      var words, rest := Each(Words(parts[0]), Lower), WordsOfParts(parts[1..]);
      PartsAreSpelt(parts[1..]);
      ConcatAdds(words, rest);
      LowerOfConcat(Words(parts[0]));
      LowerAdds(parts[0], Concat(parts[1..]));
    }
  }

  lemma LowerEach(s: string)
    ensures AreLowerWords(Each(Words(s), Lower))
  {
  }

  lemma {:induction false} LowerOfConcat(words: seq<string>)
    ensures Concat(Each(words, Lower)) == Lower(Concat(words))
  {
    if words != [] {
      hide Lower;
      LowerOfConcat(words[1..]);
      assert Each(words, Lower)[1..] == Each(words[1..], Lower);
      LowerAdds(words[0], Concat(words[1..]));
    }
  }

  lemma ArgWordsAre(arg: string)
    ensures AreLowerWords(ArgWordsOf(arg))
    ensures Concat(ArgWordsOf(arg)) == Lower(Concat(Split(arg, {'-'})))
  {
    PartsAreSpelt(Split(arg, {'-'}));
  }

  /** A placeholder's name cut at its capitals gives the argument's words back, when each
      begins with a letter; it begins in lower case. */
  lemma PlaceholderIsTheWords(arg: string)
    requires ArgWordsOf(arg) != []
    requires forall i | 0 <= i < |ArgWordsOf(arg)| :: ArgWordsOf(arg)[i] != [] && IsLower(ArgWordsOf(arg)[i][0])
    ensures Each(Words(PlaceholderName(arg)), Lower) == ArgWordsOf(arg)
    ensures PlaceholderName(arg) != [] && IsLower(PlaceholderName(arg)[0])
  {
    hide ArgWordsOf, Words, Lower, Capital, IsWord, IsCapital;
    ArgWordsAre(arg);
    var words := ArgWordsOf(arg);
    var capitals := Each(words[1..], Capital);
    var camel := [words[0]] + capitals;
    assert camel[1..] == capitals && Concat(camel) == PlaceholderName(arg);
    forall i | 0 <= i < |camel| ensures IsWord(camel[i]) && (i > 0 ==> IsCapital(camel[i])) && Lower(camel[i]) == words[i] {
      LowerOfCapital(words[i]);
    }
    WordsOfConcat(camel);
    assert Each(camel, Lower) == words;
  }

  lemma LowerOfCapital(word: string)
    requires word != [] && NoCapital(word) && IsLower(word[0])
    ensures IsWord(word) && Lower(word) == word
    ensures IsWord(Capital(word)) && IsCapital(Capital(word)) && Lower(Capital(word)) == word
  {
  }

  // ---- Matching ----------------------------------------------------------

  /** The words after `at` spell `wanted`, capitals aside. */
  predicate Matches(words: seq<string>, at: nat, wanted: seq<string>) {
    at + 1 + |wanted| <= |words|
    && forall i | 0 <= i < |wanted| :: Lower(words[at + 1 + i]) == wanted[i]
  }

  /** Of the first `n` arguments, the longest that matches, the first of a tie. */
  function Longest(words: seq<string>, at: nat, args: seq<string>, n: nat): Option<string>
    requires n <= |args|
  {
    if n == 0 then None
    else
      var best := Longest(words, at, args, n - 1);
      var wanted := ArgWordsOf(args[n - 1]);
      if Matches(words, at, wanted) && (best.None? || |wanted| > |ArgWordsOf(best.value)|)
      then Some(args[n - 1]) else best
  }

  function ParamAt(words: seq<string>, at: nat, args: seq<string>): Option<string>
    requires at < |words|
  {
    if words[at] == "By" then Longest(words, at, args, |args|) else None
  }

  /** `k` is the argument a `By` at `at` stands for. */
  ghost predicate IsChoice(words: seq<string>, at: nat, args: seq<string>, n: nat, k: nat)
    requires n <= |args|
  {
    && k < n && Matches(words, at, ArgWordsOf(args[k]))
    && (forall j | 0 <= j < n && Matches(words, at, ArgWordsOf(args[j])) ::
          |ArgWordsOf(args[j])| <= |ArgWordsOf(args[k])|)
    && (forall j | 0 <= j < k && Matches(words, at, ArgWordsOf(args[j])) ::
          |ArgWordsOf(args[j])| < |ArgWordsOf(args[k])|)
  }

  /** The match is the longest argument there is, and the first such; there is none
      exactly when no argument matches. */
  lemma {:induction false} LongestIsTheChoice(words: seq<string>, at: nat, args: seq<string>, n: nat)
    requires n <= |args|
    ensures match Longest(words, at, args, n)
      case Some(arg) => exists k: nat :: IsChoice(words, at, args, n, k) && args[k] == arg
      case None => forall k | 0 <= k < n :: !Matches(words, at, ArgWordsOf(args[k]))
  {
    hide Matches, ArgWordsOf;
    if n > 0 {
      LongestIsTheChoice(words, at, args, n - 1);
      var best := Longest(words, at, args, n - 1);
      if best.Some? {
        var k: nat :| IsChoice(words, at, args, n - 1, k) && args[k] == best.value;
        ChoiceOfOneMore(words, at, args, n, k);
      } else {
        FirstChoice(words, at, args, n);
      }
    }
  }

  lemma ChoiceOfOneMore(words: seq<string>, at: nat, args: seq<string>, n: nat, k: nat)
    requires 0 < n <= |args| && IsChoice(words, at, args, n - 1, k)
    ensures var wanted := ArgWordsOf(args[n - 1]);
      if Matches(words, at, wanted) && |wanted| > |ArgWordsOf(args[k])|
      then IsChoice(words, at, args, n, n - 1) else IsChoice(words, at, args, n, k)
  {
    hide Matches, ArgWordsOf;
  }

  lemma FirstChoice(words: seq<string>, at: nat, args: seq<string>, n: nat)
    requires 0 < n <= |args|
    requires forall k | 0 <= k < n - 1 :: !Matches(words, at, ArgWordsOf(args[k]))
    ensures Matches(words, at, ArgWordsOf(args[n - 1])) ==> IsChoice(words, at, args, n, n - 1)
  {
    hide Matches, ArgWordsOf;
  }

  // ---- Segments ----------------------------------------------------------

  datatype Segment = Literal(text: string) | Param(arg: string)

  /** A stretch of the word list: a run without parameters, or one parameter. */
  datatype Span = Run(from: nat, to: nat) | Arg(at: nat, to: nat, arg: string)
  {
    function Start(): nat { if Run? then from else at }
  }

  function Flush(start: nat, at: nat): seq<Span> {
    if start < at then [Run(start, at)] else []
  }

  /** The spans from word `at` on, when a run has been open since `start`. */
  function Spans(words: seq<string>, args: seq<string>, start: nat, at: nat): (r: seq<Span>)
    requires start <= at <= |words|
    ensures InRange(words, r)
    decreases |words| - at
  {
    if at == |words| then Flush(start, at)
    else
      match ParamAt(words, at, args)
      case Some(arg) =>
        var next := at + 1 + |ArgWordsOf(arg)|;
        ParamFits(words, at, args);
        Flush(start, at) + [Arg(at, next, arg)] + Spans(words, args, next, next)
      case None => Spans(words, args, start, at + 1)
  }

  lemma ParamFits(words: seq<string>, at: nat, args: seq<string>)
    requires at < |words|
    ensures match ParamAt(words, at, args)
      case Some(arg) => Matches(words, at, ArgWordsOf(arg))
      case None => true
  {
    if words[at] == "By" { LongestIsTheChoice(words, at, args, |args|); }
  }

  function ToSegment(words: seq<string>, span: Span): Segment
    requires span.Run? ==> span.from <= span.to <= |words|
  {
    match span
    case Run(from, to) => Literal(Kebabbed(Concat(words[from..to])))
    case Arg(_, _, arg) => Param(arg)
  }

  predicate InRange(words: seq<string>, spans: seq<Span>) {
    forall i | 0 <= i < |spans| && spans[i].Run? :: spans[i].from <= spans[i].to <= |words|
  }

  function ToSegments(words: seq<string>, spans: seq<Span>): (r: seq<Segment>)
    requires InRange(words, spans)
    ensures |r| == |spans| && forall i | 0 <= i < |r| :: r[i] == ToSegment(words, spans[i])
  {
    seq(|spans|, i requires 0 <= i < |spans| => ToSegment(words, spans[i]))
  }

  /** What the spans from `at` on look like: they tile the words, a parameter stands
      at a `By` and is the chosen argument, and a `By` in a run matched nothing. */
  ghost predicate Laid(words: seq<string>, args: seq<string>, spans: seq<Span>, start: nat) {
    && (spans == [] ==> start == |words|)
    && (spans != [] ==> spans[0].Start() == start && spans[|spans| - 1].to == |words|)
    && (forall i | 0 < i < |spans| :: spans[i].Start() == spans[i - 1].to)
    && (forall i | 0 < i < |spans| :: spans[i].Run? ==> spans[i - 1].Arg?)
    && (forall i | 0 <= i < |spans| :: LaidSpan(words, args, spans[i]))
  }

  ghost predicate LaidSpan(words: seq<string>, args: seq<string>, span: Span) {
    match span
    case Run(from, to) =>
      from < to <= |words|
      && forall k | from <= k < to && words[k] == "By" :: NoArgument(words, args, k)
    case Arg(at, to, arg) =>
      && at < to <= |words| && words[at] == "By" && to == at + 1 + |ArgWordsOf(arg)|
      && exists k: nat :: IsChoice(words, at, args, |args|, k) && args[k] == arg
  }

  ghost predicate NoArgument(words: seq<string>, args: seq<string>, at: nat) {
    forall j | 0 <= j < |args| :: !Matches(words, at, ArgWordsOf(args[j]))
  }

  lemma LaidCons(words: seq<string>, args: seq<string>, span: Span, rest: seq<Span>)
    requires LaidSpan(words, args, span) && Laid(words, args, rest, span.to)
    requires span.Run? && rest != [] ==> rest[0].Arg?
    ensures Laid(words, args, [span] + rest, span.Start())
  {
    hide LaidSpan;
    var spans := [span] + rest;
    assert forall i | 0 < i < |spans| :: spans[i] == rest[i - 1];
  }

  lemma LaidTail(words: seq<string>, args: seq<string>, spans: seq<Span>, start: nat)
    requires spans != [] && Laid(words, args, spans, start)
    ensures spans[0].Start() == start && LaidSpan(words, args, spans[0])
    ensures Laid(words, args, spans[1..], spans[0].to)
  {
    hide LaidSpan;
    var rest := spans[1..];
    assert forall i | 0 <= i < |rest| :: rest[i] == spans[i + 1];
    assert LaidSpan(words, args, spans[0]);
  }

  lemma {:induction false} SpansAreLaid(words: seq<string>, args: seq<string>, start: nat, at: nat)
    requires start <= at <= |words|
    requires forall k | start <= k < at && words[k] == "By" :: NoArgument(words, args, k)
    ensures Laid(words, args, Spans(words, args, start, at), start)
    decreases |words| - at
  {
    hide Matches, ArgWordsOf, IsChoice, NoArgument, Laid;
    LaidNone(words, args);
    if at == |words| {
      if start < at {
        LaidCons(words, args, Run(start, at), []);
        assert [Run(start, at)] + [] == [Run(start, at)];
      }
    } else {
      ChoiceAt(words, at, args);
      match ParamAt(words, at, args)
      case None => SpansAreLaid(words, args, start, at + 1);
      case Some(arg) =>
        var next := at + 1 + |ArgWordsOf(arg)|;
        SpansAreLaid(words, args, next, next);
        var rest := Spans(words, args, next, next);
        var param := Arg(at, next, arg);
        LaidCons(words, args, param, rest);
        if start < at {
          LaidCons(words, args, Run(start, at), [param] + rest);
          assert [Run(start, at)] + ([param] + rest) == Flush(start, at) + [param] + rest;
        } else {
          assert [param] + rest == Flush(start, at) + [param] + rest;
        }
    }
  }

  lemma LaidNone(words: seq<string>, args: seq<string>)
    ensures Laid(words, args, [], |words|)
  {
  }

  lemma ChoiceAt(words: seq<string>, at: nat, args: seq<string>)
    requires at < |words|
    ensures match ParamAt(words, at, args)
      case Some(arg) =>
        && words[at] == "By" && at + 1 + |ArgWordsOf(arg)| <= |words|
        && exists k: nat :: IsChoice(words, at, args, |args|, k) && args[k] == arg
      case None => words[at] == "By" ==> NoArgument(words, args, at)
  {
    LongestIsTheChoice(words, at, args, |args|);
    ParamFits(words, at, args);
  }

  /** The segments a remainder and its arguments derive. */
  function Derived(rest: string, args: seq<string>): seq<Segment> {
    var words := Words(rest);
    ToSegments(words, Spans(words, args, 0, 0))
  }

  lemma MatchesIsEquality(words: seq<string>, at: nat, wanted: seq<string>)
    requires at < |words|
    ensures Matches(words, at, wanted) <==>
      at + 1 + |wanted| <= |words| && Each(words[at + 1..at + 1 + |wanted|], Lower) == wanted
  {
    if at + 1 + |wanted| <= |words| {
      var heard := Each(words[at + 1..at + 1 + |wanted|], Lower);
      assert forall i | 0 <= i < |wanted| :: heard[i] == Lower(words[at + 1 + i]);
    }
  }

  method MatchParam(words: seq<string>, at: nat, args: seq<string>) returns (matched: Option<string>)
    requires at < |words|
    ensures matched == ParamAt(words, at, args)
  {
    hide Matches, ArgWordsOf;
    matched := None;
    var length := 0;
    if words[at] == "By" {
      for i := 0 to |args|
        invariant matched == Longest(words, at, args, i)
        invariant matched.Some? ==> length == |ArgWordsOf(matched.value)|
      {
        var wanted := ArgWords(args[i]);
        MatchesIsEquality(words, at, wanted);
        var end := at + 1 + |wanted|;
        if end <= |words| && Each(words[at + 1..end], Lower) == wanted && (matched.None? || |wanted| > length) {
          matched, length := Some(args[i]), |wanted|;
        }
      }
    }
  }

  function SegmentsFrom(words: seq<string>, args: seq<string>, start: nat, at: nat): seq<Segment>
    requires start <= at <= |words|
  {
    ToSegments(words, Spans(words, args, start, at))
  }

  function Pending(run: seq<string>): seq<Segment> {
    if run == [] then [] else [Literal(Kebabbed(Concat(run)))]
  }

  lemma SegmentsGoOn(words: seq<string>, args: seq<string>, start: nat, at: nat)
    requires start <= at <= |words|
    ensures at == |words| ==> SegmentsFrom(words, args, start, at) == Pending(words[start..at])
    ensures at < |words| ==>
      match ParamAt(words, at, args)
      case None => SegmentsFrom(words, args, start, at) == SegmentsFrom(words, args, start, at + 1)
      case Some(arg) =>
        var next := at + 1 + |ArgWordsOf(arg)|;
        next <= |words|
        && SegmentsFrom(words, args, start, at)
        == Pending(words[start..at]) + [Param(arg)] + SegmentsFrom(words, args, next, next)
  {
    hide Matches, ArgWordsOf, Kebabbed, Concat;
    if at < |words| && ParamAt(words, at, args).Some? {
      ParamFits(words, at, args);
      MatchesFits(words, at, ArgWordsOf(ParamAt(words, at, args).value));
    }
  }

  lemma MatchesFits(words: seq<string>, at: nat, wanted: seq<string>)
    requires Matches(words, at, wanted)
    ensures at + 1 + |wanted| <= |words|
  {
  }

  method DeriveSegments(rest: string, args: seq<string>) returns (segments: seq<Segment>)
    ensures segments == Derived(rest, args)
  {
    hide SegmentsFrom, Derived, ParamAt, Words, ArgWordsOf, Kebabbed, Concat;
    var words := SplitWords(rest);
    segments := [];
    var run: seq<string> := [];
    var at: nat := 0;
    ghost var start: nat := 0;
    DerivedFromStart(rest, args);
    while at < |words|
      invariant start <= at <= |words|
      invariant run == words[start..at]
      invariant segments + SegmentsFrom(words, args, start, at) == Derived(rest, args)
    {
      SegmentsGoOn(words, args, start, at);
      ghost var before := segments;
      var matched := MatchParam(words, at, args);
      match matched
      case Some(arg) =>
        if run != [] {
          var literal := Kebab(Concat(run));
          segments := segments + [Literal(literal)];
        }
        segments := segments + [Param(arg)];
        assert segments == before + (Pending(run) + [Param(arg)]);
        run := [];
        var length := ArgWords(arg);
        at := at + 1 + |length|;
        start := at;
      case None =>
        run := run + [words[at]];
        at := at + 1;
    }
    SegmentsGoOn(words, args, start, at);
    if run != [] {
      var literal := Kebab(Concat(run));
      segments := segments + [Literal(literal)];
    }
  }

  lemma DerivedFromStart(rest: string, args: seq<string>)
    ensures Derived(rest, args) == SegmentsFrom(Words(rest), args, 0, 0)
  {
  }

  // ---- Nothing is lost ---------------------------------------------------

  /** What a segment was made from: the literal in Pascal case, or `By` and the
      argument's words, capitalised. */
  function ReadBack(segment: Segment): string {
    match segment
    case Literal(text) => Pascal(text)
    case Param(arg) => "By" + Concat(Each(ArgWordsOf(arg), Capital))
  }

  function ReadAllBack(segments: seq<Segment>): string {
    if segments == [] then [] else ReadBack(segments[0]) + ReadAllBack(segments[1..])
  }

  /** The remainder of a Pascal name: it starts with a capital and has no dash or
      underscore. */
  predicate IsPascal(rest: string) {
    (rest != [] ==> IsUpper(rest[0])) && FreeOf(rest, {'_', '-'})
  }

  predicate CapitalWords(words: seq<string>) {
    forall i | 0 <= i < |words| :: IsWord(words[i]) && IsUpper(words[i][0]) && FreeOf(words[i], {'_', '-'})
  }

  lemma {:induction false} PascalWords(words: seq<string>)
    requires forall i | 0 <= i < |words| :: IsWord(words[i]) && IsUpper(words[i][0])
    requires FreeOf(Concat(words), {'_', '-'})
    ensures CapitalWords(words)
  {
    if words != [] {
      var head, tail := words[0], Concat(words[1..]);
      assert forall i | 0 <= i < |head| :: head[i] == (head + tail)[i];
      assert forall i | 0 <= i < |tail| :: tail[i] == (head + tail)[|head| + i];
      PascalWords(words[1..]);
      assert words == [head] + words[1..];
    }
  }

  lemma CapitalOfLower(word: string)
    requires IsWord(word) && IsUpper(word[0])
    ensures Capital(Lower(word)) == word
  {
  }

  lemma {:induction false} ConcatOfCapitals(words: seq<string>)
    requires words != [] && CapitalWords(words)
    ensures var s := Concat(words); s != [] && IsUpper(s[0]) && FreeOf(s, {'_', '-'})
  {
    if |words| > 1 {
      ConcatOfCapitals(words[1..]);
    } else {
      assert Concat(words[1..]) == [];
    }
  }

  lemma SpanReadsBack(words: seq<string>, args: seq<string>, span: Span)
    requires CapitalWords(words) && LaidSpan(words, args, span)
    ensures ReadBack(ToSegment(words, span)) == Concat(words[span.Start()..span.to])
  {
    hide Pascal, Kebabbed, Cased, ArgWordsOf;
    match span
    case Run(from, to) =>
      ConcatOfCapitals(words[from..to]);
      PascalUndoesKebab(Concat(words[from..to]));
    case Arg(at, to, arg) =>
      var wanted := ArgWordsOf(arg);
      assert Matches(words, at, wanted);
      forall i | 0 <= i < |wanted| ensures Capital(wanted[i]) == words[at + 1 + i] {
        CapitalOfLower(words[at + 1 + i]);
      }
      assert Each(wanted, Capital) == words[at + 1..to];
      assert words[at..to] == ["By"] + words[at + 1..to];
      hide Concat;
      ConcatOfBy(words[at + 1..to]);
  }

  lemma ConcatOfBy(words: seq<string>)
    ensures Concat(["By"] + words) == "By" + Concat(words)
  {
    assert (["By"] + words)[1..] == words;
  }

  lemma PascalUndoesKebab(s: string)
    requires (s != [] ==> !IsLower(s[0])) && FreeOf(s, {'_', '-'})
    ensures Pascal(Kebabbed(s)) == s
  {
    PascalUndoesCase(s, '-');
  }

  lemma SpanEnds(words: seq<string>, args: seq<string>, span: Span)
    requires LaidSpan(words, args, span)
    ensures span.Start() < span.to <= |words|
  {
  }

  lemma {:induction false} SpansReadBack(words: seq<string>, args: seq<string>, spans: seq<Span>, start: nat)
    requires CapitalWords(words) && start <= |words|
    requires Laid(words, args, spans, start) && InRange(words, spans)
    ensures ReadAllBack(ToSegments(words, spans)) == Concat(words[start..])
  {
    hide LaidSpan, ToSegment, ReadBack, CapitalWords, Concat;
    if spans == [] {
      NothingToConcat(words[start..]);
    } else {
      hide Laid;
      var span, rest := spans[0], spans[1..];
      LaidTail(words, args, spans, start);
      SpanReadsBack(words, args, span);
      SpanEnds(words, args, span);
      SpansReadBack(words, args, rest, span.to);
      assert ToSegments(words, spans)[1..] == ToSegments(words, rest);
      ConcatAdds(words[start..span.to], words[span.to..]);
      assert words[start..] == words[start..span.to] + words[span.to..];
    }
  }

  lemma NothingToConcat(words: seq<string>)
    requires words == []
    ensures Concat(words) == []
  {
  }

  /** The derived segments spell the remainder they came from. */
  lemma DerivationLosesNothing(rest: string, args: seq<string>)
    requires IsPascal(rest)
    ensures ReadAllBack(Derived(rest, args)) == rest
  {
    var words := Words(rest);
    PascalWords(words);
    SpansAreLaid(words, args, 0, 0);
    SpansReadBack(words, args, Spans(words, args, 0, 0), 0);
    assert words[0..] == words;
  }

  /** No two literals are neighbours: a run of words is one segment. */
  lemma LiteralsAreApart(rest: string, args: seq<string>, i: nat)
    requires 0 < i < |Derived(rest, args)|
    ensures !(Derived(rest, args)[i - 1].Literal? && Derived(rest, args)[i].Literal?)
  {
    SpansAreLaid(Words(rest), args, 0, 0);
  }

  /** A derived literal is in kebab case: parted at its dashes, it gives the words of its run
      in lower case. */
  lemma LiteralsAreKebab(rest: string, args: seq<string>, i: nat)
    requires Free(rest, '-') && i < |Derived(rest, args)| && Derived(rest, args)[i].Literal?
    ensures var words, span := Words(rest), Spans(Words(rest), args, 0, 0)[i];
      && span.Run? && span.from < span.to <= |words|
      && Split(Derived(rest, args)[i].text, {'-'}) == Each(words[span.from..span.to], Lower)
      && NoCapital(Derived(rest, args)[i].text)
  {
    hide Kebabbed, Lower, Split, Spans, Matches, ArgWordsOf;
    var words, span := Words(rest), Spans(Words(rest), args, 0, 0)[i];
    SpansAreLaid(words, args, 0, 0);
    assert LaidSpan(words, args, span);
    var run := words[span.from..span.to];
    WordsOfConcat(run);
    HeadOfConcat(run);
    PartIsFree(words, span.from, span.to, '-');
    KebabIsTheWords(Concat(run));
  }

  lemma PartIsFree(words: seq<string>, from: nat, to: nat, c: char)
    requires from <= to <= |words| && Free(Concat(words), c)
    ensures Free(Concat(words[from..to]), c)
  {
    hide Concat;
    assert words == words[..from] + (words[from..to] + words[to..]);
    ConcatAdds(words[..from], words[from..to] + words[to..]);
    ConcatAdds(words[from..to], words[to..]);
    MiddleIsFree(Concat(words[..from]), Concat(words[from..to]), Concat(words[to..]), c);
  }

  lemma MiddleIsFree(a: string, b: string, d: string, c: char)
    requires Free(a + (b + d), c)
    ensures Free(b, c)
  {
    assert forall k | 0 <= k < |b| :: b[k] == (a + (b + d))[|a| + k];
  }
}
