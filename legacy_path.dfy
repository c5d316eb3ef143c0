/**
 * The shim for old command-line clients that send one path such as
 * `ruby/two-fer/lib/x.rb` instead of separate language and problem fields
 * (api/v1/routes/iterations.rb, lines 65-76).
 */
module LegacyPath {
  import opened Wrappers

  /** What the shim extracts from a legacy path. */
  datatype Parts = Parts(language: string, problem: string, path: string)

  /** The separators of `split(/\\|\//)`. */
  predicate IsSep(c: char)
  {
    c == '/' || c == '\\'
  }

  /** A string containing no separator. */
  predicate NoSep(s: string)
  {
    forall i :: 0 <= i < |s| ==> !IsSep(s[i])
  }

  /** A string containing no line break. */
  predicate NoNewline(s: string)
  {
    forall i :: 0 <= i < |s| ==> s[i] != '\n'
  }

  /**
   * `gsub(/^\//, "")`: Ruby's `^` anchors at the start of every line, so a
   * `/` is removed at the very start and after each line break. `atLineStart`
   * says whether the remaining text `s` begins a line.
   */
  function StripLineStartSlashes(s: string, atLineStart: bool): (r: string)
    ensures |r| <= |s|
  {
    if s == [] then []
    else if atLineStart && s[0] == '/' then StripLineStartSlashes(s[1..], false)
    else [s[0]] + StripLineStartSlashes(s[1..], s[0] == '\n')
  }

  function StripLeadingSlash(s: string): (r: string)
    ensures |r| <= |s|
    ensures s != [] && s[0] == '/' ==> |r| < |s|
    ensures s != [] && s[0] != '/' ==> r != [] && r[0] == s[0]
  {
    StripLineStartSlashes(s, true)
  }

  /**
   * Every field between separators, empty ones included: the split before
   * Ruby discards the trailing empty fields.
   */
  function Fields(s: string): (r: seq<string>)
    ensures |r| >= 1
  {
    if s == [] then [""]
    else if IsSep(s[0]) then [""] + Fields(s[1..])
    else
      var t := Fields(s[1..]);
      [[s[0]] + t[0]] + t[1..]
  }

  /** Ruby's `String#split` drops every trailing empty field. */
  function DropTrailingEmpty(xs: seq<string>): (r: seq<string>)
    ensures |r| <= |xs|
    ensures r == [] || r[|r| - 1] != ""
    ensures r == xs[..|r|] && forall k :: |r| <= k < |xs| ==> xs[k] == ""
  {
    if xs == [] then []
    else if xs[|xs| - 1] == "" then DropTrailingEmpty(xs[..|xs| - 1])
    else xs
  }

  /** `s.split(/\\|\//)`. */
  function Split(s: string): (r: seq<string>)
    ensures r == [] || r[|r| - 1] != ""
    ensures |r| <= |Fields(s)|
    ensures r == Fields(s)[..|r|] && forall k :: |r| <= k < |Fields(s)| ==> Fields(s)[k] == ""
  {
    DropTrailingEmpty(Fields(s))
  }

  /** `segments.join("/")`. */
  function Join(segs: seq<string>): (r: string)
    ensures segs != [] ==> |segs[0]| <= |r| && r[..|segs[0]|] == segs[0]
    ensures |r| >= |segs| - 1
  {
    if segs == [] then ""
    else if |segs| == 1 then segs[0]
    else segs[0] + "/" + Join(segs[1..])
  }

  /** The path with every backslash turned into a slash. */
  function Normalize(s: string): (r: string)
    ensures |r| == |s|
  {
    if s == [] then [] else [if s[0] == '\\' then '/' else s[0]] + Normalize(s[1..])
  }

  /**
   * The shim on the chosen path: drop the leading slash, split, demand three
   * segments, then language, problem and the rest rejoined with `/`.
   * None is the "please upgrade" case.
   */
  function Parse(raw: string): (r: Option<Parts>)
    ensures r.None? <==> |Split(StripLeadingSlash(raw))| < 3
  {
    var segments := Split(StripLeadingSlash(raw));
    if |segments| < 3 then None
    else Some(Parts(segments[0], segments[1], Join(segments[2..])))
  }

  // ---------------------------------------------------------------------
  // Properties of the shim

  /** On text without line breaks nothing after the first character is removed. */
  lemma {:induction false} StripInsideLine(s: string)
    requires NoNewline(s)
    ensures StripLineStartSlashes(s, false) == s
  {
    if s != [] {
      assert NoNewline(s[1..]) by {
        forall i | 0 <= i < |s[1..]| ensures s[1..][i] != '\n' { assert s[1..][i] == s[i + 1]; }
      }
      StripInsideLine(s[1..]);
    }
  }

  /** Without line breaks exactly one leading slash (if any) is stripped. */
  lemma StripOneLeadingSlash(s: string)
    requires NoNewline(s)
    ensures StripLeadingSlash(s) == if s != [] && s[0] == '/' then s[1..] else s
  {
    if s != [] {
      assert NoNewline(s[1..]) by {
        forall i | 0 <= i < |s[1..]| ensures s[1..][i] != '\n' { assert s[1..][i] == s[i + 1]; }
      }
      StripInsideLine(s[1..]);
      if s[0] != '/' {
        assert s == [s[0]] + s[1..];
      }
    }
  }

  /** A separator-free word is one field. */
  lemma {:induction false} FieldsOfWord(a: string)
    requires NoSep(a)
    ensures Fields(a) == [a]
  {
    if a != [] {
      assert NoSep(a[1..]) by {
        forall i | 0 <= i < |a[1..]| ensures !IsSep(a[1..][i]) { assert a[1..][i] == a[i + 1]; }
      }
      FieldsOfWord(a[1..]);
      assert a == [a[0]] + a[1..];
    }
  }

  /** A separator-free word followed by a separator is the first field. */
  lemma {:induction false} FieldsCons(a: string, c: char, s: string)
    requires NoSep(a) && IsSep(c)
    ensures Fields(a + [c] + s) == [a] + Fields(s)
  {
    if a == [] {
      assert a + [c] + s == [c] + s;
      assert ([c] + s)[1..] == s;
    } else {
      assert NoSep(a[1..]) by {
        forall i | 0 <= i < |a[1..]| ensures !IsSep(a[1..][i]) { assert a[1..][i] == a[i + 1]; }
      }
      FieldsCons(a[1..], c, s);
      assert (a + [c] + s)[1..] == a[1..] + [c] + s;
      assert [a[0]] + a[1..] == a;
    }
  }

  /** Rejoining the fields with `/` gives the path with `\` normalised to `/`. */
  lemma {:induction false} JoinFields(s: string)
    ensures Join(Fields(s)) == Normalize(s)
  {
    if s != [] {
      JoinFields(s[1..]);
      var t := Fields(s[1..]);
      if IsSep(s[0]) {
        assert Fields(s) == [""] + t;
        assert Join(Fields(s)) == "" + "/" + Join(t);
      } else {
        assert Fields(s) == [[s[0]] + t[0]] + t[1..];
        if |t| == 1 {
          assert t == [t[0]];
        } else {
          assert t == [t[0]] + t[1..];
          assert Join(t) == t[0] + "/" + Join(t[1..]);
        }
      }
    }
  }

  /** A path not ending in a separator has no trailing empty field, so Split keeps every field. */
  lemma {:induction false} LastFieldNonEmpty(s: string)
    requires s != [] && !IsSep(s[|s| - 1])
    ensures Fields(s)[|Fields(s)| - 1] != ""
    ensures Split(s) == Fields(s)
  {
    if |s| > 1 {
      var tail := s[1..];
      assert tail[|tail| - 1] == s[|s| - 1];
      LastFieldNonEmpty(tail);
    }
  }

  /** The fields of `<language><sep><problem><sep><rest>`. */
  lemma FieldsThree(language: string, c1: char, problem: string, c2: char, rest: string)
    requires NoSep(language) && NoSep(problem) && IsSep(c1) && IsSep(c2)
    ensures Fields(language + [c1] + problem + [c2] + rest) == [language, problem] + Fields(rest)
  {
    var tail := problem + [c2] + rest;
    assert language + [c1] + problem + [c2] + rest == language + [c1] + tail;
    FieldsCons(language, c1, tail);
    FieldsCons(problem, c2, rest);
  }

  /** A path of at least three fields, the last one non-empty, splits into all of them. */
  lemma SplitThree(language: string, c1: char, problem: string, c2: char, rest: string)
    requires NoSep(language) && NoSep(problem) && IsSep(c1) && IsSep(c2)
    requires rest != [] && !IsSep(rest[|rest| - 1])
    ensures Split(language + [c1] + problem + [c2] + rest) == [language, problem] + Fields(rest)
  {
    FieldsThree(language, c1, problem, c2, rest);
    KeepFieldsOf(language, problem, rest);
  }

  /** The fields of a path whose last field is non-empty all survive the split. */
  lemma KeepFieldsOf(language: string, problem: string, rest: string)
    requires rest != [] && !IsSep(rest[|rest| - 1])
    ensures DropTrailingEmpty([language, problem] + Fields(rest)) == [language, problem] + Fields(rest)
  {
    KeepFields([language, problem] + Fields(rest), language, problem, rest);
  }

  lemma KeepFields(fs: seq<string>, language: string, problem: string, rest: string)
    requires fs == [language, problem] + Fields(rest)
    requires rest != [] && !IsSep(rest[|rest| - 1])
    ensures DropTrailingEmpty(fs) == fs
  {
    LastFieldNonEmpty(rest);
    assert fs[|fs| - 1] == Fields(rest)[|Fields(rest)| - 1];
    KeepNonEmptyLast(fs);
  }

  /** Split keeps every field when the last one is not empty. */
  lemma KeepNonEmptyLast(xs: seq<string>)
    requires xs != [] && xs[|xs| - 1] != ""
    ensures DropTrailingEmpty(xs) == xs
  {
  }

  /** One optional leading `/` before a line that does not start with `/` is all that is stripped. */
  lemma StripLead(raw: string, lead: string, body: string)
    requires lead == "" || lead == "/"
    requires raw == lead + body && NoNewline(raw)
    requires body != [] && body[0] != '/'
    ensures StripLeadingSlash(raw) == body
  {
    StripOneLeadingSlash(raw);
    if lead == "/" { assert raw[1..] == body; } else { assert raw == body; }
  }

  /** The segments of a three-field path, rejoined from the third on. */
  lemma ParseFields(body: string, language: string, c1: char, problem: string, c2: char, rest: string)
    requires body == language + [c1] + problem + [c2] + rest
    requires NoSep(language) && NoSep(problem) && IsSep(c1) && IsSep(c2)
    requires rest != [] && !IsSep(rest[|rest| - 1])
    ensures Split(body) == [language, problem] + Fields(rest)
    ensures Join(Split(body)[2..]) == Normalize(rest)
  {
    SplitThree(language, c1, problem, c2, rest);
    var segs := [language, problem] + Fields(rest);
    assert segs[2..] == Fields(rest);
    JoinFields(rest);
  }

  /**
   * The shim's main promise: `<language><sep><problem><sep><rest>` yields that
   * language, that problem and `rest` with `\` turned into `/`, whichever of
   * the two separators is used, with or without one leading `/`.
   */
  lemma ParseLegacy(lead: string, language: string, c1: char, problem: string, c2: char, rest: string)
    requires lead == "" || lead == "/"
    requires language != "" && NoSep(language) && NoSep(problem) && IsSep(c1) && IsSep(c2)
    requires rest != [] && !IsSep(rest[|rest| - 1])
    requires NoNewline(lead + (language + [c1] + problem + [c2] + rest))
    ensures Parse(lead + (language + [c1] + problem + [c2] + rest))
         == Some(Parts(language, problem, Normalize(rest)))
  {
    var body := language + [c1] + problem + [c2] + rest;
    ParseJoined(lead + body, lead, body, language, c1, problem, c2, rest);
  }

  lemma ParseJoined(raw: string, lead: string, body: string,
                    language: string, c1: char, problem: string, c2: char, rest: string)
    requires lead == "" || lead == "/"
    requires raw == lead + body && body == language + [c1] + problem + [c2] + rest
    requires language != "" && NoSep(language) && NoSep(problem) && IsSep(c1) && IsSep(c2)
    requires rest != [] && !IsSep(rest[|rest| - 1])
    requires NoNewline(raw)
    ensures Parse(raw) == Some(Parts(language, problem, Normalize(rest)))
  {
    assert body[0] == language[0];
    StripLead(raw, lead, body);
    ParseFields(body, language, c1, problem, c2, rest);
  }

  /** The example of a Windows client: `ruby\two-fer\lib\x.rb`. */
  lemma ParseBackslashExample(path: string)
    requires path == "ruby\\two-fer\\lib\\x.rb"
    ensures Parse(path) == Some(Parts("ruby", "two-fer", "lib/x.rb"))
  {
    BackslashExampleShape(path);
    assert path == "" + path;
    ParseJoined(path, "", path, "ruby", '\\', "two-fer", '\\', "lib\\x.rb");
    BackslashExampleRest();
  }

  lemma BackslashExampleShape(path: string)
    requires path == "ruby\\two-fer\\lib\\x.rb"
    ensures path == "ruby" + ['\\'] + "two-fer" + ['\\'] + "lib\\x.rb"
    ensures NoNewline(path)
  {
  }

  lemma BackslashExampleRest()
    ensures Normalize("lib\\x.rb") == "lib/x.rb"
  {
  }

  /** Two segments are too few: `ruby/impl.rb` must be rejected. */
  lemma ParseTwoSegments(path: string)
    requires path == "ruby/impl.rb"
    ensures Parse(path) == None
  {
    assert path == "ruby" + ['/'] + "impl.rb";
    StripOneLeadingSlash(path);
    FieldsCons("ruby", '/', "impl.rb");
    FieldsOfWord("impl.rb");
    KeepNonEmptyLast(["ruby", "impl.rb"]);
  }

  /** A trailing separator adds no segment: `ruby/two-fer/` has two, so it is rejected. */
  lemma ParseTrailingSeparator(path: string)
    requires path == "ruby/two-fer/"
    ensures Parse(path) == None
  {
    assert path == "ruby" + ['/'] + ("two-fer" + ['/'] + "");
    StripOneLeadingSlash(path);
    FieldsCons("ruby", '/', "two-fer" + ['/'] + "");
    FieldsCons("two-fer", '/', "");
    assert Fields(path) == ["ruby", "two-fer", ""];
    assert DropTrailingEmpty(["ruby", "two-fer", ""]) == DropTrailingEmpty(["ruby", "two-fer"]);
    KeepNonEmptyLast(["ruby", "two-fer"]);
  }
}
