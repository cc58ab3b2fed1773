/**
 File names for saved failure samples: `get_filename_safe_string` in parsedmarc/utils.py and the sample loop of
 `save_output` in parsedmarc/__init__.py.
 */
module SampleNames {
  import opened Wrappers
  import opened Numbering

  /* ---------- Safe names ---------- */

  const INVALID_FILENAME_CHARS := ['\\', '/', ':', '\"', '*', '?', '|', '\n', '\r', '\0']

  const MAX_LENGTH := 100

  predicate IsTrailing(c: char) {
    c == '.' || c == ' '
  }

  /** `s.replace(c, "")`. */
  function Without(s: string, c: char): string {
    if s == [] then [] else (if s[0] == c then [] else [s[0]]) + Without(s[1..], c)
  }

  /** `s.rstrip(". ")`. */
  function StripTrailing(s: string): string {
    if s != [] && IsTrailing(s[|s| - 1]) then StripTrailing(s[..|s| - 1]) else s
  }

  function Truncated(s: string): string {
    if |s| > MAX_LENGTH then s[..MAX_LENGTH] else s
  }

  /** `s` without any character in `dropped`, the rest in order. */
  function Kept(s: string, dropped: seq<char>): string {
    if s == [] then [] else (if s[0] in dropped then [] else [s[0]]) + Kept(s[1..], dropped)
  }

  lemma {:induction false} KeptAfterWithout(s: string, dropped: seq<char>, c: char)
    ensures Without(Kept(s, dropped), c) == Kept(s, dropped + [c])
  {
    if s != [] {
      KeptAfterWithout(s[1..], dropped, c);
      var rest := Kept(s[1..], dropped);
      assert Kept(s, dropped) == if s[0] in dropped then rest else [s[0]] + rest;
      assert ([s[0]] + rest)[1..] == rest;
      assert s[0] in dropped + [c] <==> s[0] in dropped || s[0] == c;
    }
  }

  lemma {:induction false} KeptDropsExactly(s: string, dropped: seq<char>)
    ensures forall c :: c in Kept(s, dropped) <==> c in s && c !in dropped
  {
    if s != [] {
      KeptDropsExactly(s[1..], dropped);
      assert s == [s[0]] + s[1..];
    }
  }

  lemma {:induction false} KeptUnchanged(s: string, dropped: seq<char>)
    ensures (forall c :: c in s ==> c !in dropped) ==> Kept(s, dropped) == s
  {
    if s != [] {
      KeptUnchanged(s[1..], dropped);
      assert s == [s[0]] + s[1..];
    }
  }

  lemma KeptHead(c: char, s: string, dropped: seq<char>)
    ensures Kept([c] + s, dropped) == (if c in dropped then [] else [c]) + Kept(s, dropped)
  {
    assert ([c] + s)[1..] == s;
  }

  /** What is kept keeps its order: a text is gone through piece by piece. */
  lemma {:induction false} KeptInOrder(a: string, b: string, dropped: seq<char>)
    ensures Kept(a + b, dropped) == Kept(a, dropped) + Kept(b, dropped)
  {
    if a == [] {
      assert a + b == b;
    } else {
      KeptInOrder(a[1..], b, dropped);
      assert a + b == [a[0]] + (a[1..] + b) && a == [a[0]] + a[1..];
      KeptHead(a[0], a[1..] + b, dropped);
      KeptHead(a[0], a[1..], dropped);
      hide Kept;
    }
  }

  lemma {:induction false} StripTrailingCut(s: string)
    ensures var r := StripTrailing(s);
      r <= s && (r != [] ==> !IsTrailing(r[|r| - 1])) && forall k :: |r| <= k < |s| ==> IsTrailing(s[k])
  {
    if s != [] && IsTrailing(s[|s| - 1]) {
      StripTrailingCut(s[..|s| - 1]);
    }
  }

  /** What may be handed out as a file name: short, free of the invalid characters, not ending in a dot or space. */
  predicate IsSafe(name: string) {
    |name| <= MAX_LENGTH && (forall c :: c in name ==> c !in INVALID_FILENAME_CHARS)
    && (name != [] ==> !IsTrailing(name[|name| - 1]))
  }

  /** `name` is what `text` comes to: the kept characters, cut at the limit, less only trailing dots and spaces. */
  predicate IsSafeNameOf(name: string, text: string) {
    var cut := Truncated(Kept(text, INVALID_FILENAME_CHARS));
    name <= cut && IsSafe(name) && forall k :: |name| <= k < |cut| ==> IsTrailing(cut[k])
  }

  function SafeName(text: Option<string>): string {
    StripTrailing(Truncated(Kept(if text.None? then "None" else text.value, INVALID_FILENAME_CHARS)))
  }

  method GetFilenameSafeString(text: Option<string>) returns (name: string)
    ensures name == SafeName(text)
  {
    name := if text.None? then "None" else text.value;
    ghost var start := name;
    KeptUnchanged(start, []);
    for i := 0 to |INVALID_FILENAME_CHARS|
      invariant name == Kept(start, INVALID_FILENAME_CHARS[..i])
    {
      KeptAfterWithout(start, INVALID_FILENAME_CHARS[..i], INVALID_FILENAME_CHARS[i]);
      assert INVALID_FILENAME_CHARS[..i + 1] == INVALID_FILENAME_CHARS[..i] + [INVALID_FILENAME_CHARS[i]];
      name := Without(name, INVALID_FILENAME_CHARS[i]);
    }
    assert INVALID_FILENAME_CHARS[..|INVALID_FILENAME_CHARS|] == INVALID_FILENAME_CHARS;
    name := if |name| > MAX_LENGTH then name[..MAX_LENGTH] else name;
    name := StripTrailing(name);
  }

  /** What a safe name is spelled out: no separator, drive colon, quote, wildcard, pipe, line break or NUL. */
  lemma SafeMeans(name: string)
    ensures IsSafe(name) <==>
      && |name| <= 100 && (name != [] ==> name[|name| - 1] != '.' && name[|name| - 1] != ' ')
      && forall c :: c in name ==>
        c != '/' && c != '\\' && c != ':' && c != '\"' && c != '*' && c != '?' && c != '|' && c != '\n' && c != '\r'
        && c != '\0'
  {
    assert INVALID_FILENAME_CHARS[0] == '\\' && INVALID_FILENAME_CHARS[1] == '/' && INVALID_FILENAME_CHARS[2] == ':'
      && INVALID_FILENAME_CHARS[3] == '\"' && INVALID_FILENAME_CHARS[4] == '*' && INVALID_FILENAME_CHARS[5] == '?'
      && INVALID_FILENAME_CHARS[6] == '|' && INVALID_FILENAME_CHARS[7] == '\n' && INVALID_FILENAME_CHARS[8] == '\r'
      && INVALID_FILENAME_CHARS[9] == '\0';
  }

  /** A missing text counts as the text "None". */
  lemma MissingText()
    ensures SafeName(None) == "None"
  {
    var text := "None";
    assert IsSafe(text);
    SafeIsFixed(text);
  }

  /** The result is safe and keeps all that can be kept. */
  lemma SafeNameIsSafe(text: string)
    ensures IsSafeNameOf(SafeName(Some(text)), text)
  {
    var kept := Kept(text, INVALID_FILENAME_CHARS);
    KeptDropsExactly(text, INVALID_FILENAME_CHARS);
    StripTrailingCut(Truncated(kept));
    var name := SafeName(Some(text));
    forall c | c in name ensures c !in INVALID_FILENAME_CHARS {
      assert c in kept;
    }
  }

  /** Nothing else meets that description. */
  lemma SafeNameIsUnique(text: string, name: string)
    ensures IsSafeNameOf(name, text) <==> name == SafeName(Some(text))
  {
    SafeNameIsSafe(text);
    if IsSafeNameOf(name, text) {
      var best := SafeName(Some(text));
      var cut := Truncated(Kept(text, INVALID_FILENAME_CHARS));
      NotShorter(cut, name, best);
      NotShorter(cut, best, name);
      assert name == cut[..|name|] && best == cut[..|best|];
    }
  }

  lemma NotShorter(cut: string, a: string, b: string)
    requires a <= cut && (a != [] ==> !IsTrailing(a[|a| - 1]))
    requires b <= cut && forall k :: |b| <= k < |cut| ==> IsTrailing(cut[k])
    ensures |a| <= |b|
  {
    if a != [] {
      assert a[|a| - 1] == cut[|a| - 1];
    }
  }

  /** A name is left alone exactly when it is safe, so making a name safe twice changes nothing more. */
  lemma SafeNamesAreFixpoints(text: string)
    ensures SafeName(Some(text)) == text <==> IsSafe(text)
    ensures SafeName(Some(SafeName(Some(text)))) == SafeName(Some(text))
  {
    SafeNameIsSafe(text);
    if IsSafe(text) {
      SafeIsFixed(text);
    }
    SafeIsFixed(SafeName(Some(text)));
  }

  lemma SafeIsFixed(name: string)
    requires IsSafe(name)
    ensures SafeName(Some(name)) == name
  {
    KeptUnchanged(name, INVALID_FILENAME_CHARS);
  }

  /* ---------- One file per sample ---------- */

  datatype Sample = Sample(subject: Option<string>, content: string)

  /** The name a sample starts from. */
  function Stem(sample: Sample): (stem: string)
    ensures stem != []
  {
    if SafeName(sample.subject) == [] then "sample" else SafeName(sample.subject)
  }

  /** `stem`, `stem (1)`, `stem (2)`, ... */
  function Attempted(stem: string, n: nat): string {
    Numbered(stem, " (", ")", "", n)
  }

  function PathOf(name: string): string {
    name + ".eml"
  }

  function SetOf(names: seq<string>): (r: set<string>)
    ensures forall name :: name in r <==> name in names
  {
    set name | name in names
  }

  lemma {:induction false} SetOfBound(names: seq<string>)
    ensures |SetOf(names)| <= |names|
  {
    if names != [] {
      SetOfBound(names[1..]);
      assert names == [names[0]] + names[1..];
      assert SetOf(names) == {names[0]} + SetOf(names[1..]);
    }
  }

  /** `name` is the first candidate for `stem` that no earlier sample took. */
  ghost predicate IsFirstFree(stem: string, earlier: seq<string>, name: string) {
    name !in earlier && exists n: nat :: name == Attempted(stem, n) && forall k: nat :: k < n ==>
      Attempted(stem, k) in earlier
  }

  ghost predicate IsNaming(samples: seq<Sample>, names: seq<string>) {
    |names| == |samples| && forall i :: 0 <= i < |names| ==> IsFirstFree(Stem(samples[i]), names[..i], names[i])
  }

  predicate AllDistinct(names: seq<string>) {
    forall i, j :: 0 <= i < j < |names| ==> names[i] != names[j]
  }

  /** A name is found within as many attempts as there are earlier samples. */
  lemma NumbersAreBounded(stem: string, earlier: seq<string>, n: nat)
    requires forall k: nat :: k < n ==> Attempted(stem, k) in earlier
    ensures n <= |earlier|
  {
    assert forall k: nat :: Attempted(stem, k) == Numbered(stem, " (", ")", "", k);
    TakenNamesBound(stem, " (", ")", "", n, SetOf(earlier));
    SetOfBound(earlier);
  }

  /** Whatever the subjects look like, no two samples of a call get the same name. */
  lemma NamesAreDistinct(samples: seq<Sample>, names: seq<string>)
    requires IsNaming(samples, names)
    ensures AllDistinct(names)
  {
    forall i, j | 0 <= i < j < |names| ensures names[i] != names[j] {
      assert names[i] == names[..j][i];
    }
  }

  lemma FirstFreeIsUnique(stem: string, earlier: seq<string>, a: string, b: string)
    requires IsFirstFree(stem, earlier, a) && IsFirstFree(stem, earlier, b)
    ensures a == b
  {
    hide Attempted;
    var m: nat :| a == Attempted(stem, m) && forall k: nat :: k < m ==> Attempted(stem, k) in earlier;
    var n: nat :| b == Attempted(stem, n) && forall k: nat :: k < n ==> Attempted(stem, k) in earlier;
  }

  /** The names are determined by the subjects. */
  lemma {:induction false} NamingIsUnique(samples: seq<Sample>, a: seq<string>, b: seq<string>, i: nat)
    requires IsNaming(samples, a) && IsNaming(samples, b) && i <= |samples|
    ensures a[..i] == b[..i]
  {
    hide IsFirstFree, Stem;
    if i > 0 {
      NamingIsUnique(samples, a, b, i - 1);
      FirstFreeIsUnique(Stem(samples[i - 1]), a[..i - 1], a[i - 1], b[i - 1]);
      assert a[..i] == a[..i - 1] + [a[i - 1]] && b[..i] == b[..i - 1] + [b[i - 1]];
    }
  }

  /** No file name holds a separator, a NUL or any other invalid character, or leaves its directory. */
  lemma PathsAreSafe(samples: seq<Sample>, names: seq<string>, i: nat)
    requires IsNaming(samples, names) && i < |names|
    ensures forall c :: c in PathOf(names[i]) ==> c !in INVALID_FILENAME_CHARS && c != '/' && c != '\\' && c != '\0'
    ensures PathOf(names[i]) != "." && PathOf(names[i]) != ".." && Stem(samples[i]) <= PathOf(names[i])
  {
    var stem := Stem(samples[i]);
    StemIsSafe(samples[i]);
    hide Attempted, Stem, IsTrailing;
    var n: nat :| names[i] == Attempted(stem, n);
    AttemptedCharacters(stem, n);
    AddedCharactersAreValid();
    SafeMeans(stem);
  }

  lemma AddedCharactersAreValid()
    ensures forall c :: c == ' ' || c == '(' || c == ')' || c in ".eml" || '0' <= c <= '9' ==>
      c !in INVALID_FILENAME_CHARS
  {
  }

  lemma StemIsSafe(sample: Sample)
    ensures IsSafe(Stem(sample))
  {
    hide Kept, StripTrailing, Truncated;
    SafeNameIsSafe(if sample.subject.None? then "None" else sample.subject.value);
  }

  lemma AttemptedCharacters(stem: string, n: nat)
    ensures forall c :: c in Attempted(stem, n) ==> c in stem || c == ' ' || c == '(' || c == ')' || '0' <= c <= '9'
    ensures stem <= Attempted(stem, n)
  {
    NumeralHasOnlyDigits(n);
    hide Numeral;
  }

  /** A path is the subject's safe name, or "sample" if that is empty, with a number when it is taken, and `.eml`. */
  lemma PathShape(samples: seq<Sample>, names: seq<string>, i: nat) returns (n: nat)
    requires IsNaming(samples, names) && i < |names|
    ensures var safe := SafeName(samples[i].subject);
      var stem := if safe == "" then "sample" else safe;
      && PathOf(names[i]) == (if n == 0 then stem else stem + " (" + Numeral(n) + ")") + ".eml"
      && n <= i
  {
    hide SafeName, Numeral;
    var stem := Stem(samples[i]);
    n :| names[i] == Attempted(stem, n) && forall k: nat :: k < n ==> Attempted(stem, k) in names[..i];
    NumbersAreBounded(stem, names[..i], n);
    assert n > 0 ==> Attempted(stem, n) == stem + " (" + Numeral(n) + ")";
    assert n == 0 ==> Attempted(stem, n) == stem;
  }

  class Directory {
    var files: map<string, string>

    constructor (files: map<string, string>)
      ensures this.files == files
    {
      this.files := files;
    }

    /** Writes every sample to its own file; files under other names stay as they were. */
    method WriteSamples(samples: seq<Sample>) returns (ghost names: seq<string>)
      modifies this
      ensures IsNaming(samples, names) && AllDistinct(names)
      ensures Written(samples, names, old(files), files)
    {
      var sampleFilenames: seq<string> := [];
      assert IsNaming(samples[..0], sampleFilenames) && Written(samples[..0], sampleFilenames, files, files);
      hide *;
      for i := 0 to |samples|
        invariant |sampleFilenames| == i
        invariant IsNaming(samples[..i], sampleFilenames) && AllDistinct(sampleFilenames)
        invariant Written(samples[..i], sampleFilenames, old(files), files)
      {
        var filename := ChooseName(samples[i], sampleFilenames);
        SampleStep(samples, i, sampleFilenames, filename, old(files), files);
        files := files[PathOf(filename) := samples[i].content];
        sampleFilenames := sampleFilenames + [filename];
      }
      assert samples[..|samples|] == samples;
      names := sampleFilenames;
    }

    /** The inner loop; it changes nothing. */
    static method ChooseName(sample: Sample, sampleFilenames: seq<string>) returns (filename: string)
      ensures IsFirstFree(Stem(sample), sampleFilenames, filename)
    {
      hide Numeral, SafeName;
      var messageCount := 0;
      var subject := GetFilenameSafeString(sample.subject);
      if subject == "" {
        subject := "sample";
      }
      filename := subject;
      while filename in sampleFilenames
        invariant subject == Stem(sample) && filename == Attempted(subject, messageCount)
        invariant messageCount <= |sampleFilenames|
        invariant forall k: nat :: k < messageCount ==> Attempted(subject, k) in sampleFilenames
        decreases |sampleFilenames| - messageCount
      {
        messageCount := messageCount + 1;
        NumbersAreBounded(subject, sampleFilenames, messageCount);
        filename := subject + " (" + Numeral(messageCount) + ")";
      }
    }
  }

  ghost predicate Written(samples: seq<Sample>, names: seq<string>, before: map<string, string>,
      after: map<string, string>)
    requires |samples| == |names|
  {
    && (forall i :: 0 <= i < |samples| ==> PathOf(names[i]) in after && after[PathOf(names[i])] == samples[i].content)
    && (forall path :: (forall i :: 0 <= i < |names| ==> path != PathOf(names[i])) ==>
      (path in after <==> path in before) && (path in after ==> after[path] == before[path]))
  }

  lemma NamingStep(samples: seq<Sample>, names: seq<string>, sample: Sample, name: string)
    requires IsNaming(samples, names) && IsFirstFree(Stem(sample), names, name)
    ensures IsNaming(samples + [sample], names + [name]) && AllDistinct(names + [name])
  {
    hide IsFirstFree, Stem;
    var all := names + [name];
    assert all[..|names|] == names;
    forall i | 0 <= i < |all| ensures IsFirstFree(Stem((samples + [sample])[i]), all[..i], all[i]) {
      if i < |names| {
        assert all[..i] == names[..i];
      }
    }
    NamesAreDistinct(samples + [sample], all);
  }

  lemma WriteStep(
    samples: seq<Sample>, names: seq<string>, sample: Sample, name: string,
    before: map<string, string>, middle: map<string, string>
  )
    requires |samples| == |names| && Written(samples, names, before, middle) && IsFirstFree(Stem(sample), names, name)
    ensures Written(samples + [sample], names + [name], before, middle[PathOf(name) := sample.content])
  {
    var all, after := names + [name], middle[PathOf(name) := sample.content];
    forall i | 0 <= i < |names| ensures PathOf(names[i]) != PathOf(name) {
      if PathOf(names[i]) == PathOf(name) {
        PathInjective(names[i], name);
        assert false;
      }
    }
    hide PathOf;
    forall path | forall i :: 0 <= i < |all| ==> path != PathOf(all[i])
      ensures (path in after <==> path in before) && (path in after ==> after[path] == before[path])
    {
      assert path != PathOf(all[|names|]);
      forall i | 0 <= i < |names| ensures path != PathOf(names[i]) {
        assert all[i] == names[i];
      }
    }
  }

  lemma SampleStep(
    samples: seq<Sample>, i: nat, names: seq<string>, name: string, before: map<string, string>, middle: map<string,
      string>
  )
    requires i < |samples| && |names| == i && IsNaming(samples[..i], names) &&
      Written(samples[..i], names, before, middle)
    requires IsFirstFree(Stem(samples[i]), names, name)
    ensures IsNaming(samples[..i + 1], names + [name]) && AllDistinct(names + [name])
    ensures Written(samples[..i + 1], names + [name], before, middle[PathOf(name) := samples[i].content])
  {
    NamingStep(samples[..i], names, samples[i], name);
    WriteStep(samples[..i], names, samples[i], name, before, middle);
    assert samples[..i + 1] == samples[..i] + [samples[i]];
  }

  lemma PathInjective(a: string, b: string)
    requires PathOf(a) == PathOf(b)
    ensures a == b
  {
    assert PathOf(a)[..|PathOf(a)| - 4] == a && PathOf(b)[..|PathOf(b)| - 4] == b;
  }
}
