/** `slugify` from lib/storage.ts: lower-case, trim, turn every run of
    whitespace into one hyphen, delete everything that is not a word character
    or a hyphen, and squeeze runs of hyphens into one. Each `replace` with a
    global regular expression is one function here. */
module Slug {

  /** The characters JavaScript's `\s` and `String.prototype.trim` treat as
      white space: the ASCII ones, no-break space, the Unicode space
      separators, the line and paragraph separators and the byte-order mark. */
  predicate IsSpace(c: char)
  {
    c == '\t' || c == '\n' || c == '\U{B}' || c == '\U{C}' || c == '\r' || c == ' '
    || c == '\U{A0}' || c == '\U{1680}' || ('\U{2000}' <= c <= '\U{200A}')
    || c == '\U{2028}' || c == '\U{2029}' || c == '\U{202F}' || c == '\U{205F}'
    || c == '\U{3000}' || c == '\U{FEFF}'
  }

  predicate IsHyphen(c: char)
  {
    c == '-'
  }

  predicate IsUpper(c: char)
  {
    'A' <= c <= 'Z'
  }

  /** JavaScript's `\w`: ASCII letters, digits and underscore. */
  predicate IsWordChar(c: char)
  {
    'a' <= c <= 'z' || IsUpper(c) || '0' <= c <= '9' || c == '_'
  }

  /** What a slug is made of. */
  predicate IsSlugChar(c: char)
  {
    'a' <= c <= 'z' || '0' <= c <= '9' || c == '_' || c == '-'
  }

  predicate NoDoubleHyphen(t: string)
  {
    forall i :: 0 <= i < |t| - 1 ==> !(t[i] == '-' && t[i + 1] == '-')
  }

  function LowerChar(c: char): char
  {
    if IsUpper(c) then (c as int + 32) as char else c
  }

  /** `toLowerCase` on ASCII letters. */
  function Lower(s: string): (r: string)
    ensures |r| == |s|
    ensures forall i :: 0 <= i < |r| ==> !IsUpper(r[i])
    ensures forall i :: 0 <= i < |r| ==> IsWordChar(r[i]) == IsWordChar(s[i])
    ensures forall i :: 0 <= i < |r| ==> IsSpace(r[i]) == IsSpace(s[i])
    ensures forall i :: 0 <= i < |s| && IsUpper(s[i]) ==> r[i] as int == s[i] as int + 32
    ensures forall i :: 0 <= i < |s| && !IsUpper(s[i]) ==> r[i] == s[i]
  {
    seq(|s|, i requires 0 <= i < |s| => LowerChar(s[i]))
  }

  /** The longest suffix of `s` that does not start with a character
      satisfying `p`. */
  function DropWhile(s: string, p: char -> bool): (r: string)
    ensures |r| <= |s| && r == s[|s| - |r|..]
    ensures r == [] || !p(r[0])
    ensures forall i :: 0 <= i < |s| - |r| ==> p(s[i])
  {
    if s != [] && p(s[0]) then
      var r := DropWhile(s[1..], p);
      assert forall i :: 0 <= i < |s| - |r| ==> p(s[i]) by {
        forall i | 0 <= i < |s| - |r|
          ensures p(s[i])
        {
          if i > 0 {
            assert s[i] == s[1..][i - 1];
          }
        }
      }
      r
    else s
  }

  function TrimStart(s: string): (r: string)
    ensures |r| <= |s|
    ensures forall c :: c in r ==> c in s
    ensures r == [] || !IsSpace(r[0])
  {
    DropWhile(s, IsSpace)
  }

  function TrimEnd(s: string): (r: string)
    ensures |r| <= |s| && r == s[..|r|]
    ensures r == [] || !IsSpace(r[|r| - 1])
    ensures forall i :: |r| <= i < |s| ==> IsSpace(s[i])
  {
    if s != [] && IsSpace(s[|s| - 1]) then TrimEnd(s[..|s| - 1]) else s
  }

  /** `trim`: white space removed from both ends. */
  function Trim(s: string): (r: string)
    ensures |r| <= |s|
    ensures forall c :: c in r ==> c in s
    ensures r == [] || (!IsSpace(r[0]) && !IsSpace(r[|r| - 1]))
  {
    var t := TrimStart(s);
    var r := TrimEnd(t);
    assert forall c :: c in r ==> c in t;
    r
  }

  /** `trim` removes white space at both ends and nothing else: the result
      is one contiguous part of `s`, and everything before and after it is
      white space. */
  lemma TrimSpan(s: string)
    ensures var r := Trim(s);
            var a := |s| - |TrimStart(s)|;
            && a + |r| <= |s| && r == s[a..a + |r|]
            && (forall i :: 0 <= i < a ==> IsSpace(s[i]))
            && (forall i :: a + |r| <= i < |s| ==> IsSpace(s[i]))
  {
    var t := TrimStart(s);
    var r := TrimEnd(t);
    var a := |s| - |t|;
    TrimStartSpan(s);
    assert t[..|r|] == s[a..a + |r|];
    forall i | a + |r| <= i < |s|
      ensures IsSpace(s[i])
    {
      assert s[i] == t[i - a];
    }
  }

  /** What `TrimStart` drops is white space, and it keeps a suffix. */
  lemma TrimStartSpan(s: string)
    ensures var t := TrimStart(s);
            && t == s[|s| - |t|..]
            && forall i :: 0 <= i < |s| - |t| ==> IsSpace(s[i])
  {
    var t := DropWhile(s, IsSpace);
    forall i | 0 <= i < |s| - |t|
      ensures IsSpace(s[i])
    {
    }
  }


  /** `replace(/X+/g, "-")` where `p` recognises X: every maximal run of
      characters satisfying `p` becomes a single hyphen. */
  function ReplaceRuns(s: string, p: char -> bool): (r: string)
    ensures |r| <= |s|
    decreases |s|
  {
    if s == [] then []
    else if p(s[0]) then ['-'] + ReplaceRuns(DropWhile(s[1..], p), p)
    else [s[0]] + ReplaceRuns(s[1..], p)
  }

  /** `replace(/[^\w\-]+/g, "")`: every character that is neither a word
      character nor a hyphen is deleted. */
  function StripNonWord(s: string): (r: string)
    ensures |r| <= |s|
  {
    if s == [] then []
    else if IsWordChar(s[0]) || s[0] == '-' then [s[0]] + StripNonWord(s[1..])
    else StripNonWord(s[1..])
  }

  /** What `ReplaceRuns` writes: hyphens, and characters of `s` outside the
      runs. */
  lemma {:induction false} ReplaceRunsChars(s: string, p: char -> bool)
    ensures forall c :: c in ReplaceRuns(s, p) ==> c == '-' || (c in s && !p(c))
    decreases |s|
  {
    if s != [] {
      if p(s[0]) {
        var d := DropWhile(s[1..], p);
        ReplaceRunsChars(d, p);
        assert forall c :: c in d ==> c in s;
      } else {
        ReplaceRunsChars(s[1..], p);
      }
    }
  }

  /** What `StripNonWord` keeps: word characters and hyphens of `s`. */
  lemma {:induction false} StripNonWordChars(s: string)
    ensures forall c :: c in StripNonWord(s) ==> c in s && (IsWordChar(c) || c == '-')
  {
    if s != [] {
      StripNonWordChars(s[1..]);
    }
  }

  /** `slugify`: lower-case, trim, turn each run of white space into `-`,
      delete everything but word characters and `-`, and collapse runs of
      hyphens. None of these steps lengthens the string. */
  function Slugify(text: string): (r: string)
    ensures |r| <= |text|
  {
    ReplaceRuns(StripNonWord(ReplaceRuns(Trim(Lower(text)), IsSpace)), IsHyphen)
  }

  /** A slug holds only lower-case ASCII letters, digits, `_` and `-`, and
      therefore no white space; it is never longer than the title. */
  lemma SlugAlphabet(text: string)
    ensures forall c :: c in Slugify(text) ==> IsSlugChar(c) && !IsSpace(c)
    ensures |Slugify(text)| <= |text|
  {
    SlugChars(text);
    forall c | c in Slugify(text)
      ensures !IsSpace(c)
    {
      SlugCharNotSpace(c);
    }
  }

  lemma SlugChars(text: string)
    ensures forall c :: c in Slugify(text) ==> IsSlugChar(c)
  {
    var lowered := Lower(text);
    var trimmed := Trim(lowered);
    var spaced := ReplaceRuns(trimmed, IsSpace);
    var stripped := StripNonWord(spaced);
    LowerNoUpper(text);
    ReplaceRunsChars(trimmed, IsSpace);
    StripNonWordChars(spaced);
    ReplaceRunsChars(stripped, IsHyphen);
  }

  lemma LowerNoUpper(s: string)
    ensures forall c :: c in Lower(s) ==> !IsUpper(c)
  {
    forall c | c in Lower(s)
      ensures !IsUpper(c)
    {
      var i :| 0 <= i < |Lower(s)| && Lower(s)[i] == c;
    }
  }

  /** A slug character is not white space: a character fact called as a hint
      by the alphabet proofs. */
  lemma SlugCharNotSpace(c: char)
    requires IsSlugChar(c)
    ensures !IsSpace(c)
  {
  }

  /** No run of two or more characters satisfying `p` survives `ReplaceRuns`
      when `p` accepts the hyphen it writes. */
  lemma {:induction false} ReplaceRunsNoAdjacent(s: string, p: char -> bool)
    requires p('-')
    ensures forall i :: 0 <= i < |ReplaceRuns(s, p)| - 1 ==>
              !(p(ReplaceRuns(s, p)[i]) && p(ReplaceRuns(s, p)[i + 1]))
    decreases |s|
  {
    if s == [] {
    } else if p(s[0]) {
      var d := DropWhile(s[1..], p);
      ReplaceRunsNoAdjacent(d, p);
      var r := ReplaceRuns(s, p);
      assert r == ['-'] + ReplaceRuns(d, p);
      if d != [] {
        assert ReplaceRuns(d, p)[0] == d[0];
      }
    } else {
      ReplaceRunsNoAdjacent(s[1..], p);
      var r := ReplaceRuns(s, p);
      assert r == [s[0]] + ReplaceRuns(s[1..], p);
      assert !p(r[0]);
    }
  }

  /** A slug never contains `--`. */
  lemma SlugNoDoubleHyphen(text: string)
    ensures NoDoubleHyphen(Slugify(text))
  {
    ReplaceRunsNoAdjacent(StripNonWord(ReplaceRuns(Trim(Lower(text)), IsSpace)), IsHyphen);
  }

  /** `ReplaceRuns` leaves alone a string whose only `p` characters are lone
      hyphens. */
  lemma {:induction false} ReplaceRunsFixed(t: string, p: char -> bool)
    requires forall i :: 0 <= i < |t| && p(t[i]) ==> t[i] == '-'
    requires forall i :: 0 <= i < |t| - 1 ==> !(p(t[i]) && p(t[i + 1]))
    ensures ReplaceRuns(t, p) == t
    decreases |t|
  {
    if t != [] {
      ReplaceRunsFixed(t[1..], p);
      if p(t[0]) {
        assert DropWhile(t[1..], p) == t[1..];
      }
      assert t == [t[0]] + t[1..];
    }
  }

  lemma {:induction false} StripNonWordFixed(t: string)
    requires forall i :: 0 <= i < |t| ==> IsSlugChar(t[i])
    ensures StripNonWord(t) == t
  {
    if t != [] {
      StripNonWordFixed(t[1..]);
      assert t == [t[0]] + t[1..];
    }
  }

  lemma LowerFixed(t: string)
    requires forall i :: 0 <= i < |t| ==> !IsUpper(t[i])
    ensures Lower(t) == t
  {
  }

  lemma TrimFixed(t: string)
    requires forall i :: 0 <= i < |t| ==> !IsSpace(t[i])
    ensures Trim(t) == t
  {
    assert TrimStart(t) == t;
    assert TrimEnd(t) == t;
  }

  /** A string of slug characters without `--` is its own slug. */
  lemma SlugFixed(t: string)
    requires forall i :: 0 <= i < |t| ==> IsSlugChar(t[i]) && !IsSpace(t[i])
    requires NoDoubleHyphen(t)
    ensures Slugify(t) == t
  {
    LowerFixed(t);
    TrimFixed(t);
    ReplaceRunsFixed(t, IsSpace);
    StripNonWordFixed(t);
    ReplaceRunsFixed(t, IsHyphen);
  }

  /** Slugifying a slug gives it back unchanged. */
  lemma SlugifyIdempotent(text: string)
    ensures Slugify(Slugify(text)) == Slugify(text)
  {
    var t := Slugify(text);
    SlugAlphabet(text);
    SlugNoDoubleHyphen(text);
    forall i | 0 <= i < |t|
      ensures IsSlugChar(t[i]) && !IsSpace(t[i])
    {
      assert t[i] in t;
    }
    SlugFixed(t);
  }

  lemma {:induction false} ReplaceRunsAfterPlain(a: string, b: string, p: char -> bool)
    requires forall i :: 0 <= i < |a| ==> !p(a[i])
    ensures ReplaceRuns(a + b, p) == a + ReplaceRuns(b, p)
    decreases |a|
  {
    if a != [] {
      ReplaceRunsAfterPlain(a[1..], b, p);
      assert (a + b)[0] == a[0] && (a + b)[1..] == a[1..] + b;
      assert ReplaceRuns(a + b, p) == [a[0]] + ReplaceRuns(a[1..] + b, p);
      assert a == [a[0]] + a[1..];
    } else {
      assert a + b == b;
    }
  }

  lemma {:induction false} StripNonWordAppend(a: string, b: string)
    ensures StripNonWord(a + b) == StripNonWord(a) + StripNonWord(b)
  {
    if a != [] {
      StripNonWordAppend(a[1..], b);
      assert (a + b)[0] == a[0] && (a + b)[1..] == a[1..] + b;
      assert a == [a[0]] + a[1..];
    } else {
      assert a + b == b;
    }
  }

  predicate IsPunctuation(c: char)
  {
    !IsWordChar(c) && c != '-' && !IsSpace(c)
  }

  lemma LowerMyProject(c: char)
    requires IsPunctuation(c)
    ensures Lower("My Project" + [c]) == "my project" + [c]
  {
    assert LowerChar(c) == c;
  }

  lemma TrimMyProject(c: char)
    requires IsPunctuation(c)
    ensures Trim("my project" + [c]) == "my project" + [c]
  {
    var t := "my project" + [c];
    assert TrimStart(t) == t;
    assert TrimEnd(t) == t;
  }

  lemma LoneRunChar(x: char, tail: string, p: char -> bool)
    requires p(x) && tail != [] && !p(tail[0])
    ensures ReplaceRuns([x] + tail, p) == ['-'] + ReplaceRuns(tail, p)
  {
    assert ([x] + tail)[1..] == tail;
  }

  lemma SpaceBeforeProject(c: char)
    requires IsPunctuation(c)
    ensures ReplaceRuns([' '] + ("project" + [c]), IsSpace) == ['-'] + ("project" + [c])
  {
    var tail := "project" + [c];
    LoneRunChar(' ', tail, IsSpace);
    assert forall i :: 0 <= i < |"project"| ==> !IsSpace("project"[i]);
    assert forall i :: 0 <= i < |tail| ==> !IsSpace(tail[i]);
    ReplaceRunsFixed(tail, IsSpace);
  }

  lemma SpacesMyProject(c: char)
    requires IsPunctuation(c)
    ensures ReplaceRuns("my project" + [c], IsSpace) == "my-project" + [c]
  {
    var tail := [' '] + ("project" + [c]);
    MyProjectSplit(c);
    ReplaceRunsAfterPlain("my", tail, IsSpace);
    SpaceBeforeProject(c);
    MyProjectJoin(c);
  }

  lemma MyProjectSplit(c: char)
    ensures "my project" + [c] == "my" + ([' '] + ("project" + [c]))
  {
    assert "my project" == "my" + [' '] + "project";
  }

  lemma MyProjectJoin(c: char)
    ensures "my" + (['-'] + ("project" + [c])) == "my-project" + [c]
  {
    assert "my-project" == "my" + ['-'] + "project";
  }

  lemma StripLone(c: char)
    requires IsPunctuation(c)
    ensures StripNonWord([c]) == []
  {
    assert [c][1..] == [];
  }

  lemma MyProjectSlugChars()
    ensures forall i :: 0 <= i < |"my-project"| ==> IsSlugChar("my-project"[i])
  {
  }

  lemma StripMyProject(c: char)
    requires IsPunctuation(c)
    ensures StripNonWord("my-project" + [c]) == "my-project"
  {
    StripNonWordAppend("my-project", [c]);
    StripLone(c);
    MyProjectSlugChars();
    StripNonWordFixed("my-project");
    assert "my-project" + [] == "my-project";
  }

  /** Every title made of "My Project" and one trailing punctuation mark has
      the slug "my-project". */
  lemma TrailingPunctuationDropped(c: char)
    requires IsPunctuation(c)
    ensures Slugify("My Project" + [c]) == "my-project"
  {
    LowerMyProject(c);
    TrimMyProject(c);
    SpacesMyProject(c);
    StripMyProject(c);
    ReplaceRunsFixed("my-project", IsHyphen);
  }

  lemma ExclamationSlug()
    ensures Slugify("My Project!") == "my-project"
  {
    assert "My Project!" == "My Project" + ['!'];
    TrailingPunctuationDropped('!');
  }

  lemma QuestionSlug()
    ensures Slugify("My Project?") == "my-project"
  {
    assert "My Project?" == "My Project" + ['?'];
    TrailingPunctuationDropped('?');
  }

  /** Two different titles share a slug, so the second submission's record
      replaces the first's under the same key. */
  lemma SlugCollision()
    ensures Slugify("My Project!") == Slugify("My Project?") == "my-project"
  {
    ExclamationSlug();
    QuestionSlug();
  }
}
