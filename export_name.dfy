/**
 * The name of an exported PNG: `component-gradient-<slug>-<timestamp>.png`,
 * where the slug of a configuration name is
 * `name.toLowerCase().replace(/\s+/g, "-").replace(/[^a-z0-9-]/g, "")`.
 * The editing screen (src/components/GradientGenerator.tsx) and its
 * preview (src/components/GradientPreview.tsx) both name their download
 * this way; the simple view writes a fixed name, which is this rule
 * applied to "Default Image".
 */
module ExportName {
  import opened Text

  /** `toLowerCase` on one character, for the ASCII letters. */
  function ToLowerChar(c: char): char {
    if 'A' <= c <= 'Z' then (c as int - 'A' as int + 'a' as int) as char else c
  }

  /** `toLowerCase`. */
  function ToLower(s: string): string {
    seq(|s|, i requires 0 <= i < |s| => ToLowerChar(s[i]))
  }

  /** The class `\s` of JavaScript regular expressions. */
  predicate IsSpace(c: char) {
    || c == '\t' || c == '\n' || c == '\U{B}' || c == '\U{C}' || c == '\r' || c == ' '
    || c == '\U{A0}' || c == '\U{1680}' || ('\U{2000}' <= c <= '\U{200A}')
    || c == '\U{2028}' || c == '\U{2029}' || c == '\U{202F}' || c == '\U{205F}'
    || c == '\U{3000}' || c == '\U{FEFF}'
  }

  /** No whitespace anywhere in `s`. */
  predicate NoSpace(s: string) {
    forall i :: 0 <= i < |s| ==> !IsSpace(s[i])
  }

  /**
   * `replace(/\s+/g, "-")`, scanning left to right; `inRun` says the
   * previous character belonged to a run already replaced.
   */
  function Hyphenate(s: string, inRun: bool): string {
    if s == [] then []
    else if IsSpace(s[0]) then (if inRun then [] else "-") + Hyphenate(s[1..], true)
    else [s[0]] + Hyphenate(s[1..], false)
  }

  /** The characters a slug keeps: `[a-z0-9-]`. */
  predicate IsSlugChar(c: char) {
    'a' <= c <= 'z' || '0' <= c <= '9' || c == '-'
  }

  /** `replace(/[^a-z0-9-]/g, "")`. */
  function KeepSlugChars(s: string): string {
    if s == [] then []
    else if IsSlugChar(s[0]) then [s[0]] + KeepSlugChars(s[1..])
    else KeepSlugChars(s[1..])
  }

  /** Filtering keeps only slug characters and never lengthens the text. */
  lemma {:induction false} KeepSlugCharsSpec(s: string)
    ensures |KeepSlugChars(s)| <= |s|
    ensures forall i :: 0 <= i < |KeepSlugChars(s)| ==> IsSlugChar(KeepSlugChars(s)[i])
    decreases |s|
  {
    if s != [] {
      KeepSlugCharsSpec(s[1..]);
    }
  }

  /** Replacing runs leaves no whitespace and never lengthens the text. */
  lemma {:induction false} HyphenateSpec(s: string, inRun: bool)
    ensures |Hyphenate(s, inRun)| <= |s|
    ensures NoSpace(Hyphenate(s, inRun))
    decreases |s|
  {
    if s != [] {
      HyphenateSpec(s[1..], IsSpace(s[0]));
    }
  }

  /** The slug of a configuration name: only `[a-z0-9-]`, and no longer than the name. */
  function Slug(name: string): (r: string)
    ensures |r| <= |name|
    ensures forall i :: 0 <= i < |r| ==> IsSlugChar(r[i])
  {
    var h := Hyphenate(ToLower(name), false);
    HyphenateSpec(ToLower(name), false);
    KeepSlugCharsSpec(h);
    KeepSlugChars(h)
  }

  /** A whole run of whitespace becomes one hyphen, or nothing if a run was already open. */
  lemma {:induction false} HyphenateRun(run: string, rest: string, inRun: bool)
    requires |run| > 0 && forall i :: 0 <= i < |run| ==> IsSpace(run[i])
    ensures Hyphenate(run + rest, inRun) == (if inRun then "" else "-") + Hyphenate(rest, true)
    decreases |run|
  {
    assert (run + rest)[1..] == run[1..] + rest;
    if |run| > 1 {
      HyphenateRun(run[1..], rest, true);
    } else {
      assert run[1..] + rest == rest;
    }
  }

  /** A stretch without whitespace passes through unchanged and closes any open run. */
  lemma {:induction false} HyphenateWord(word: string, rest: string, inRun: bool)
    requires |word| > 0 && NoSpace(word)
    ensures Hyphenate(word + rest, inRun) == word + Hyphenate(rest, false)
    decreases |word|
  {
    assert (word + rest)[1..] == word[1..] + rest;
    if |word| > 1 {
      HyphenateWord(word[1..], rest, false);
    } else {
      assert word[1..] + rest == rest;
    }
  }

  /** Text without whitespace passes through `Hyphenate` unchanged. */
  lemma HyphenateNoSpace(s: string, inRun: bool)
    requires NoSpace(s)
    ensures Hyphenate(s, inRun) == s
  {
    if s != [] {
      HyphenateWord(s, [], inRun);
      assert s + [] == s;
    }
  }

  /** Text made of slug characters passes through `KeepSlugChars` unchanged. */
  lemma {:induction false} KeepSlugCharsOfSlug(s: string)
    requires forall i :: 0 <= i < |s| ==> IsSlugChar(s[i])
    ensures KeepSlugChars(s) == s
    decreases |s|
  {
    if s != [] {
      KeepSlugCharsOfSlug(s[1..]);
    }
  }

  /** Filtering distributes over concatenation. */
  lemma {:induction false} KeepSlugCharsAppend(a: string, b: string)
    ensures KeepSlugChars(a + b) == KeepSlugChars(a) + KeepSlugChars(b)
    decreases |a|
  {
    if a != [] {
      assert (a + b)[1..] == a[1..] + b;
      KeepSlugCharsAppend(a[1..], b);
    } else {
      assert a + b == b;
    }
  }

  /** Lower-casing distributes over concatenation. */
  lemma ToLowerAppend(a: string, b: string)
    ensures ToLower(a + b) == ToLower(a) + ToLower(b)
  {
    assert ToLower(a + b) == ToLower(a) + ToLower(b);
  }

  /** Lower-casing neither makes nor removes whitespace. */
  lemma ToLowerNoSpace(s: string)
    requires NoSpace(s)
    ensures NoSpace(ToLower(s))
  {
  }

  /** Slugging a slug changes nothing. */
  lemma SlugIdempotent(name: string)
    ensures Slug(Slug(name)) == Slug(name)
  {
    var s := Slug(name);
    assert ToLower(s) == s;
    HyphenateNoSpace(s, false);
    KeepSlugCharsOfSlug(s);
  }

  /** Without whitespace, the slug is the lower-cased text with the other characters dropped. */
  lemma SlugNoSpace(s: string)
    requires NoSpace(s)
    ensures Slug(s) == KeepSlugChars(ToLower(s))
  {
    ToLowerNoSpace(s);
    HyphenateNoSpace(ToLower(s), false);
  }

  /** Without whitespace, the slug of a concatenation is the concatenation of the slugs. */
  lemma SlugAppendNoSpace(a: string, b: string)
    requires NoSpace(a) && NoSpace(b)
    ensures Slug(a + b) == Slug(a) + Slug(b)
  {
    assert NoSpace(a + b) by {
      forall i | 0 <= i < |a + b| ensures !IsSpace((a + b)[i]) {
        if i >= |a| { assert (a + b)[i] == b[i - |a|]; }
      }
    }
    SlugNoSpace(a);
    SlugNoSpace(b);
    SlugNoSpace(a + b);
    ToLowerAppend(a, b);
    KeepSlugCharsAppend(ToLower(a), ToLower(b));
  }

  /** The slugs of the words, in order. */
  function Slugs(words: seq<string>): (r: seq<string>)
    ensures |r| == |words|
  {
    if words == [] then [] else [Slug(words[0])] + Slugs(words[1..])
  }

  /** The words lower-cased, in order. */
  function LowerWords(words: seq<string>): (r: seq<string>)
    ensures |r| == |words|
  {
    if words == [] then [] else [ToLower(words[0])] + LowerWords(words[1..])
  }

  /** Every word is non-empty and free of whitespace. */
  predicate SpacelessWords(words: seq<string>) {
    forall i :: 0 <= i < |words| ==> |words[i]| > 0 && NoSpace(words[i])
  }

  /** Lower-casing words joined by a space joins the lower-cased words by a space. */
  lemma {:induction false} ToLowerJoin(words: seq<string>)
    ensures ToLower(Join(words, " ")) == Join(LowerWords(words), " ")
    decreases |words|
  {
    if |words| >= 2 {
      ToLowerJoin(words[1..]);
      ToLowerAppend(words[0] + " ", Join(words[1..], " "));
      ToLowerAppend(words[0], " ");
      assert ToLower(" ") == " ";
      assert LowerWords(words)[1..] == LowerWords(words[1..]);
    }
  }

  /** Words joined by single spaces come out joined by single hyphens. */
  lemma {:induction false} HyphenateJoin(words: seq<string>, inRun: bool)
    requires SpacelessWords(words)
    ensures Hyphenate(Join(words, " "), inRun) == Join(words, "-")
    decreases |words|
  {
    if |words| == 1 {
      HyphenateNoSpace(words[0], inRun);
    } else if |words| >= 2 {
      var rest := Join(words[1..], " ");
      HyphenateJoin(words[1..], true);
      assert words == [words[0]] + words[1..];
      assert words[0] + " " + rest == words[0] + (" " + rest);
      HyphenateWord(words[0], " " + rest, inRun);
      HyphenateRun(" ", rest, false);
      assert words[0] + "-" + Join(words[1..], "-") == words[0] + ("-" + Join(words[1..], "-"));
    }
  }

  /** Filtering words joined by hyphens joins the filtered words by hyphens. */
  lemma {:induction false} KeepSlugCharsJoin(parts: seq<string>)
    ensures KeepSlugChars(Join(parts, "-")) == Join(KeptWords(parts), "-")
    decreases |parts|
  {
    if |parts| >= 2 {
      KeepSlugCharsJoin(parts[1..]);
      KeepSlugCharsAppend(parts[0] + "-", Join(parts[1..], "-"));
      KeepSlugCharsAppend(parts[0], "-");
      assert KeptWords(parts)[1..] == KeptWords(parts[1..]);
    }
  }

  /** The words with the non-slug characters dropped, in order. */
  function KeptWords(parts: seq<string>): (r: seq<string>)
    ensures |r| == |parts|
  {
    if parts == [] then [] else [KeepSlugChars(parts[0])] + KeptWords(parts[1..])
  }

  /**
   * Words separated by single spaces: the slug is the words' own slugs
   * joined by hyphens.
   */
  lemma SlugSpacedWords(words: seq<string>)
    requires SpacelessWords(words)
    ensures Slug(Join(words, " ")) == Join(Slugs(words), "-")
  {
    ToLowerJoin(words);
    LowerWordsSpaceless(words);
    HyphenateJoin(LowerWords(words), false);
    KeepSlugCharsJoin(LowerWords(words));
    KeptLowerWords(words);
  }

  /** Lower-cased spaceless words stay spaceless. */
  lemma {:induction false} LowerWordsSpaceless(words: seq<string>)
    requires SpacelessWords(words)
    ensures SpacelessWords(LowerWords(words))
    decreases |words|
  {
    if words != [] {
      LowerWordsSpaceless(words[1..]);
      ToLowerNoSpace(words[0]);
    }
  }

  /** Filtering the lower-cased spaceless words gives their slugs. */
  lemma {:induction false} KeptLowerWords(words: seq<string>)
    requires SpacelessWords(words)
    ensures KeptWords(LowerWords(words)) == Slugs(words)
    decreases |words|
  {
    if words != [] {
      KeptLowerWords(words[1..]);
      SlugNoSpace(words[0]);
    }
  }

  /** A word without whitespace whose lower-case form is all slug characters is its own slug, lower-cased. */
  lemma WordSlug(word: string, lower: string)
    requires NoSpace(word) && ToLower(word) == lower
    requires forall i :: 0 <= i < |lower| ==> IsSlugChar(lower[i])
    ensures Slug(word) == lower
  {
    SlugNoSpace(word);
    KeepSlugCharsOfSlug(lower);
  }

  /** Two words without whitespace, joined by a space, slug to their slugs joined by a hyphen. */
  lemma SlugTwoWords(a: string, b: string)
    requires |a| > 0 && NoSpace(a) && |b| > 0 && NoSpace(b)
    ensures Slug(a + " " + b) == Slug(a) + "-" + Slug(b)
  {
    var words := [a, b];
    assert Join(words, " ") == a + " " + b;
    SlugSpacedWords(words);
    assert Slugs(words) == [Slug(a), Slug(b)];
  }

  /** The same for three words. */
  lemma SlugThreeWords(a: string, b: string, c: string)
    requires |a| > 0 && NoSpace(a) && |b| > 0 && NoSpace(b) && |c| > 0 && NoSpace(c)
    ensures Slug(a + " " + b + " " + c) == Slug(a) + "-" + Slug(b) + "-" + Slug(c)
  {
    var words := [a, b, c];
    assert words[1..] == [b, c] && words[1..][1..] == [c];
    assert Join([c], " ") == c;
    assert Join([b, c], " ") == b + " " + c;
    assert Join(words, " ") == a + " " + (b + " " + c);
    SlugSpacedWords(words);
    assert Slugs([c]) == [Slug(c)] + Slugs([]);
    assert Slugs([b, c]) == [Slug(b)] + Slugs([c]);
    var ss := Slugs(words);
    assert ss == [Slug(a), Slug(b), Slug(c)];
    assert ss[1..] == [Slug(b), Slug(c)] && ss[1..][1..] == [Slug(c)];
    assert Join([Slug(c)], "-") == Slug(c);
    assert Join([Slug(b), Slug(c)], "-") == Slug(b) + "-" + Slug(c);
    assert Join(ss, "-") == Slug(a) + "-" + (Slug(b) + "-" + Slug(c));
    assert a + " " + (b + " " + c) == a + " " + b + " " + c;
    assert Slug(a) + "-" + (Slug(b) + "-" + Slug(c)) == Slug(a) + "-" + Slug(b) + "-" + Slug(c);
  }

  /** The first word of the example. */
  lemma ExampleFirstWord()
    ensures NoSpace("My") && Slug("My") == "my"
  {
    WordSlug("My", "my");
  }

  /** The second word of the example. */
  lemma ExampleSecondWord()
    ensures NoSpace("Cool") && Slug("Cool") == "cool"
  {
    WordSlug("Cool", "cool");
  }

  /** The last word of the example: the "!" is dropped. */
  lemma ExampleLastWord()
    ensures NoSpace("Gradient!") && Slug("Gradient!") == "gradient"
  {
    assert "Gradient" + "!" == "Gradient!";
    WordSlug("Gradient", "gradient");
    SlugNoSpace("!");
    SlugAppendNoSpace("Gradient", "!");
  }

  /** "My Cool Gradient!" becomes "my-cool-gradient". */
  lemma SlugExample()
    ensures Slug("My Cool Gradient!") == "my-cool-gradient"
  {
    assert "My" + " " + "Cool" + " " + "Gradient!" == "My Cool Gradient!";
    assert "my" + "-" + "cool" + "-" + "gradient" == "my-cool-gradient";
    ExampleFirstWord();
    ExampleSecondWord();
    ExampleLastWord();
    SlugThreeWords("My", "Cool", "Gradient!");
  }

  const FilenamePrefix: string := "component-gradient-"
  const FilenameSuffix: string := ".png"

  /** `component-gradient-<slug>-<timestamp>.png`. */
  function ExportFilename(name: string, timestamp: nat): (f: string)
    ensures |f| == |FilenamePrefix| + |Slug(name)| + 1 + |NatToString(timestamp)| + |FilenameSuffix|
    ensures f[..|FilenamePrefix|] == FilenamePrefix
    ensures f[|FilenamePrefix|..|FilenamePrefix| + |Slug(name)|] == Slug(name)
    ensures f[|FilenamePrefix| + |Slug(name)|] == '-'
    ensures f[|FilenamePrefix| + |Slug(name)| + 1..|f| - |FilenameSuffix|] == NatToString(timestamp)
    ensures f[|f| - |FilenameSuffix|..] == FilenameSuffix
  {
    var n := |FilenamePrefix| + |Slug(name)|;
    var f := FilenamePrefix + Slug(name) + "-" + NatToString(timestamp) + FilenameSuffix;
    assert f[|FilenamePrefix|..n] == Slug(name);
    assert f[n + 1..|f| - |FilenameSuffix|] == NatToString(timestamp);
    f
  }
}
