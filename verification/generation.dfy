/** Password assembly from the resolved settings: the generation record, the
    per-class random character helpers, and `generate_password`. The random
    number generator and the dictionary-word source are oracles passed in as
    parameters. */
module Generation {
  import opened Basics
  import opened StdParse

  /** The five generation fields of a configuration record. */
  datatype Settings = Settings(
    minimumLength: usize,
    includeNumbers: bool,
    includeSpecial: bool,
    includeUcase: bool,
    useWords: bool)

  /** `GenerationData` as its callers use it: the generation fields, the
      profile the record is bound to, and the transient overwrite flag. */
  datatype GenerationData = GenerationData(
    settings: Settings,
    profile: Option<string>,
    overwrite: Option<bool>)

  /** The random number generator: `pick(k, lo, hi)` is the character the
      `k`-th draw returns from the inclusive range `lo..=hi`. */
  type CharOracle = (nat, char, char) -> char

  /** The generator's promise: every draw lies in the requested range. */
  ghost predicate ValidOracle(pick: CharOracle) {
    forall k: nat, lo: char, hi: char :: lo <= hi ==> lo <= pick(k, lo, hi) <= hi
  }

  /** The four character classes the generator draws from. */
  datatype CharClass = Lower | Upper | Numeric | Special

  function ClassLow(c: CharClass): char {
    match c
    case Lower => 'a'
    case Upper => 'A'
    case Numeric => '0'
    case Special => '!'
  }

  function ClassHigh(c: CharClass): char {
    match c
    case Lower => 'z'
    case Upper => 'Z'
    case Numeric => '9'
    case Special => '~'
  }

  predicate InClass(ch: char, c: CharClass) {
    ClassLow(c) <= ch <= ClassHigh(c)
  }

  /** `generate_random_char`: the `k`-th draw from `start..=end`, which must
      be a non-empty range. */
  function GenerateRandomChar(pick: CharOracle, k: nat, start: char, end: char): (c: char)
    requires ValidOracle(pick) && start <= end
    ensures start <= c <= end
  {
    pick(k, start, end)
  }

  function GenerateLcaseChar(pick: CharOracle, k: nat): (c: char)
    requires ValidOracle(pick)
    ensures InClass(c, Lower)
  {
    GenerateRandomChar(pick, k, 'a', 'z')
  }

  function GenerateUcaseChar(pick: CharOracle, k: nat): (c: char)
    requires ValidOracle(pick)
    ensures InClass(c, Upper)
  {
    GenerateRandomChar(pick, k, 'A', 'Z')
  }

  function GenerateNumericChar(pick: CharOracle, k: nat): (c: char)
    requires ValidOracle(pick)
    ensures InClass(c, Numeric)
  {
    GenerateRandomChar(pick, k, '0', '9')
  }

  function GenerateSpecialChar(pick: CharOracle, k: nat): (c: char)
    requires ValidOracle(pick)
    ensures InClass(c, Special)
  {
    GenerateRandomChar(pick, k, '!', '~')
  }

  /** The classes of the characters appended after the base part, in the
      order they are appended. */
  function IncludedClasses(s: Settings): seq<CharClass> {
    (if s.includeNumbers then [Numeric] else [])
    + (if s.includeSpecial then [Special] else [])
    + (if s.includeUcase then [Upper] else [])
  }

  function FlagCount(s: Settings): nat {
    (if s.includeNumbers then 1 else 0)
    + (if s.includeSpecial then 1 else 0)
    + (if s.includeUcase then 1 else 0)
  }

  /** One appended character per enabled flag, and nothing else. */
  lemma IncludedClassesCount(s: Settings)
    ensures |IncludedClasses(s)| == FlagCount(s)
    ensures Numeric in IncludedClasses(s) <==> s.includeNumbers
    ensures Special in IncludedClasses(s) <==> s.includeSpecial
    ensures Upper in IncludedClasses(s) <==> s.includeUcase
    ensures Lower !in IncludedClasses(s)
  {
  }

  /** The lower-case loop: `n` characters, the `i`-th of them the draw
      numbered `k + i`, all in 'a'..'z'. */
  function LowercaseRun(pick: CharOracle, k: nat, n: nat): (r: string)
    requires ValidOracle(pick)
    ensures |r| == n
    ensures forall i :: 0 <= i < n ==> InClass(r[i], Lower) && r[i] == pick(k + i, 'a', 'z')
    decreases n
  {
    if n == 0 then [] else [GenerateLcaseChar(pick, k)] + LowercaseRun(pick, k + 1, n - 1)
  }

  /** The optional tail: a digit if numbers are included, then a special
      character if special characters are, then an upper-case letter if
      upper case is; the draws are numbered from `k`. */
  function IncludeChars(s: Settings, pick: CharOracle, k: nat): (r: string)
    requires ValidOracle(pick)
    ensures |r| == |IncludedClasses(s)|
    ensures forall i :: 0 <= i < |r| ==> InClass(r[i], IncludedClasses(s)[i])
  {
    var nums := if s.includeNumbers then [GenerateNumericChar(pick, k)] else [];
    var spec := if s.includeSpecial then [GenerateSpecialChar(pick, k + |nums|)] else [];
    var ucase := if s.includeUcase then [GenerateUcaseChar(pick, k + |nums| + |spec|)] else [];
    nums + spec + ucase
  }

  /** State of the dictionary-word loop: the password so far, the set of
      words already used, and (for the proofs) the words appended in order. */
  datatype WordState = WordState(password: string, used: set<string>, chosen: seq<string>)

  predicate Distinct(words: seq<string>) {
    forall i, j :: 0 <= i < j < |words| ==> words[i] != words[j]
  }

  /** The password is the appended words in order, the used set is exactly
      those words, and none was appended twice. */
  ghost predicate WordsConsistent(st: WordState) {
    && st.password == Flatten(st.chosen)
    && st.used == (set w | w in st.chosen)
    && Distinct(st.chosen)
  }

  /** The dictionary-word loop over a finite prefix `source` of the word
      oracle's output: a word not yet used is appended and recorded, a used
      one is skipped, and the loop stops once the password reaches
      `minimum`. `None` means the prefix ran out first. */
  function FillWords(source: seq<string>, st: WordState, minimum: nat): (r: Option<WordState>)
    ensures r.Some? ==> |r.value.password| >= minimum
    ensures r.Some? ==> forall w :: w in r.value.chosen ==> w in st.chosen || w in source
    decreases |source|
  {
    if |st.password| >= minimum then Some(st)
    else if |source| == 0 then None
    else if source[0] in st.used then FillWords(source[1..], st, minimum)
    else
      var w := source[0];
      FillWords(source[1..], WordState(st.password + w, st.used + {w}, st.chosen + [w]), minimum)
  }

  /** The words the loop would append from `source`, never stopping: each
      word not yet used, at its first occurrence, so every unused source word
      appears exactly once. */
  function FreshWords(source: seq<string>, used: set<string>): (r: seq<string>)
    ensures forall w :: w in r ==> w in source && w !in used
    ensures forall w :: w in source && w !in used ==> w in r
    ensures Distinct(r)
    decreases |source|
  {
    if |source| == 0 then []
    else
      assert forall w :: w in source && w != source[0] ==> w in source[1..];
      if source[0] in used then FreshWords(source[1..], used)
      else [source[0]] + FreshWords(source[1..], used + {source[0]})
  }

  /** The word loop finishes exactly when the password so far together with
      every fresh word of the source reaches the minimum length; `None`
      means the source ran out first. */
  lemma {:induction false} FillWordsSucceedsIff(source: seq<string>, st: WordState, minimum: nat)
    ensures FillWords(source, st, minimum).Some?
            <==> |st.password| + |Flatten(FreshWords(source, st.used))| >= minimum
    decreases |source|
  {
    if |st.password| >= minimum || |source| == 0 {
    } else if source[0] in st.used {
      FillWordsSucceedsIff(source[1..], st, minimum);
    } else {
      var w := source[0];
      var rest := FreshWords(source[1..], st.used + {w});
      assert FreshWords(source, st.used) == [w] + rest;
      assert ([w] + rest)[1..] == rest;
      assert Flatten([w] + rest) == w + Flatten(rest);
      FillWordsSucceedsIff(source[1..], WordState(st.password + w, st.used + {w}, st.chosen + [w]), minimum);
    }
  }

  /** The word loop never appends a word twice and builds the password from
      exactly the words it records. */
  lemma {:induction false} FillWordsConsistent(source: seq<string>, st: WordState, minimum: nat)
    requires WordsConsistent(st)
    ensures FillWords(source, st, minimum).Some? ==> WordsConsistent(FillWords(source, st, minimum).value)
    decreases |source|
  {
    if |st.password| >= minimum || |source| == 0 {
    } else if source[0] in st.used {
      FillWordsConsistent(source[1..], st, minimum);
    } else {
      var w := source[0];
      var next := WordState(st.password + w, st.used + {w}, st.chosen + [w]);
      FlattenSnoc(st.chosen, w);
      assert w !in st.chosen;
      assert (set x | x in next.chosen) == (set x | x in st.chosen) + {w} by {
        forall x | x in next.chosen
          ensures x in (set x | x in st.chosen) + {w}
        {
          if x != w {
            assert x in st.chosen;
          }
        }
      }
      FillWordsConsistent(source[1..], next, minimum);
    }
  }

  const EMPTY_WORDS := WordState("", {}, [])

  /** `generate_password`: a base part (distinct dictionary words until the
      minimum length is reached, or exactly `minimumLength` lower-case
      letters), then the optional digit, special and upper-case characters.
      `None` only when the word source prefix is too short (`FillWordsSucceedsIff`). */
  function GeneratePassword(s: Settings, pick: CharOracle, source: seq<string>): (r: Option<string>)
    requires ValidOracle(pick)
    ensures r.Some? ==> |r.value| >= s.minimumLength + FlagCount(s)
    ensures r.Some? ==>
              var tail := IncludedClasses(s);
              |r.value| >= |tail| &&
              forall i :: 0 <= i < |tail| ==> InClass(r.value[|r.value| - |tail| + i], tail[i])
    ensures !s.useWords ==> r.Some? && |r.value| == s.minimumLength + FlagCount(s)
    ensures !s.useWords ==> forall i :: 0 <= i < s.minimumLength ==> InClass(r.value[i], Lower)
  {
    IncludedClassesCount(s);
    if s.useWords then
      match FillWords(source, EMPTY_WORDS, s.minimumLength)
      case None => None
      case Some(st) => Some(st.password + IncludeChars(s, pick, 0))
    else
      Some(LowercaseRun(pick, 0, s.minimumLength) + IncludeChars(s, pick, s.minimumLength))
  }

  /** With dictionary words, the base part is a concatenation of pairwise
      distinct words taken from the word source, at least `minimumLength`
      long, followed by the optional characters. */
  lemma WordPasswordShape(s: Settings, pick: CharOracle, source: seq<string>)
    requires ValidOracle(pick) && s.useWords
    requires FillWords(source, EMPTY_WORDS, s.minimumLength).Some?
    ensures var st := FillWords(source, EMPTY_WORDS, s.minimumLength).value;
            && Distinct(st.chosen)
            && (forall w :: w in st.chosen ==> w in source)
            && |Flatten(st.chosen)| >= s.minimumLength
            && GeneratePassword(s, pick, source) == Some(Flatten(st.chosen) + IncludeChars(s, pick, 0))
  {
    assert WordsConsistent(EMPTY_WORDS);
    FillWordsConsistent(source, EMPTY_WORDS, s.minimumLength);
    var st := FillWords(source, EMPTY_WORDS, s.minimumLength).value;
    assert WordsConsistent(st);
  }
}
