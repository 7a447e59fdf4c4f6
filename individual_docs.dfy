/**
 * The per-model Markdown files `perform_export` writes into
 * `export_<timestamp>/individual-configs/`: a file name made from the model's
 * name, and a short document with the name, the description and the system
 * prompt. The directory is a map from file name to contents; writing a name
 * that is already there replaces the earlier file.
 */
module IndividualDocs {
  import opened Wrappers
  import opened JsonValue
  import opened Text

  // ---------------------------------------------------------------- file names

  /** `c.isalnum() or c in ['-', '_']`. */
  predicate Kept(c: char) {
    IsAlnum(c) || c == '-' || c == '_'
  }

  /** `''.join(c for c in s if ...)`. */
  function KeepSafe(s: string): string
    decreases |s|
  {
    if |s| == 0 then "" else (if Kept(s[0]) then [s[0]] else "") + KeepSafe(s[1..])
  }

  /** Lower-case, turn spaces, slashes and backslashes into `-`, then drop every other unsafe character. */
  function Stem(name: string): string {
    KeepSafe(ReplaceChar(ReplaceChar(ReplaceChar(Lower(name), ' ', "-"), '/', "-"), '\\', "-"))
  }

  /** The file name written for a model name. */
  function Slug(name: string): string {
    Stem(name) + ".md"
  }

  /** A character that can appear in a stem. */
  predicate SlugChar(c: char) {
    'a' <= c <= 'z' || '0' <= c <= '9' || c == '-' || c == '_'
  }

  /** What one character of the name contributes to the stem. */
  function StemOf(c: char): string {
    var l := LowerChar(c);
    if l == ' ' || l == '/' || l == '\\' then "-" else if Kept(l) then [l] else ""
  }

  /** The stem as one pass over the name. */
  function StemEach(s: string): string
    decreases |s|
  {
    if |s| == 0 then "" else StemOf(s[0]) + StemEach(s[1..])
  }

  lemma {:induction false} KeepSafeAppend(a: string, b: string)
    ensures KeepSafe(a + b) == KeepSafe(a) + KeepSafe(b)
    decreases |a|
  {
    if |a| > 0 {
      assert (a + b)[0] == a[0] && (a + b)[1..] == a[1..] + b;
      KeepSafeAppend(a[1..], b);
    } else {
      assert a + b == b;
    }
  }

  /** The chain of `lower`, three `replace`s and the filter works character by character. */
  lemma {:induction false} StemIsOnePass(name: string)
    ensures Stem(name) == StemEach(name)
    decreases |name|
  {
    if |name| > 0 {
      var c := name[0];
      var l := LowerChar(c);
      var tail := name[1..];
      assert Lower(name) == [l] + Lower(tail);
      ReplaceCharAppend([l], Lower(tail), ' ', "-");
      var h1 := ReplaceChar([l], ' ', "-");
      var t1 := ReplaceChar(Lower(tail), ' ', "-");
      ReplaceCharAppend(h1, t1, '/', "-");
      var h2 := ReplaceChar(h1, '/', "-");
      var t2 := ReplaceChar(t1, '/', "-");
      ReplaceCharAppend(h2, t2, '\\', "-");
      var h3 := ReplaceChar(h2, '\\', "-");
      var t3 := ReplaceChar(t2, '\\', "-");
      KeepSafeAppend(h3, t3);
      StemOfHead(c);
      StemIsOnePass(tail);
    }
  }

  /** The chain applied to a single character gives that character's part of the stem. */
  lemma StemOfHead(c: char)
    ensures var l := LowerChar(c);
            KeepSafe(ReplaceChar(ReplaceChar(ReplaceChar([l], ' ', "-"), '/', "-"), '\\', "-")) == StemOf(c)
  {
    var l := LowerChar(c);
    ReplaceSingle(l, ' ');
    ReplaceSingle('-', '/');
    ReplaceSingle(l, '/');
    ReplaceSingle('-', '\\');
    ReplaceSingle(l, '\\');
    var h3 := ReplaceChar(ReplaceChar(ReplaceChar([l], ' ', "-"), '/', "-"), '\\', "-");
    assert h3 == (if l == ' ' || l == '/' || l == '\\' then "-" else [l]);
    assert [l][1..] == [] && "-"[1..] == [];
  }

  lemma ReplaceSingle(x: char, c: char)
    ensures ReplaceChar([x], c, "-") == if x == c then "-" else [x]
  {
    assert [x][1..] == [];
  }

  /** Every character of a file name stem is a lower-case letter, a digit, `-` or `_`: no name escapes the directory. */
  lemma StemCharset(name: string)
    ensures forall i :: 0 <= i < |Stem(name)| ==> SlugChar(Stem(name)[i])
  {
    StemIsOnePass(name);
    StemEachCharset(name);
  }

  lemma {:induction false} StemEachCharset(s: string)
    ensures forall i :: 0 <= i < |StemEach(s)| ==> SlugChar(StemEach(s)[i])
    decreases |s|
  {
    if |s| > 0 {
      StemEachCharset(s[1..]);
      var h := StemOf(s[0]);
      assert forall i :: 0 <= i < |h| ==> SlugChar(h[i]);
      var r := StemEach(s);
      assert r == h + StemEach(s[1..]);
      forall i | 0 <= i < |r| ensures SlugChar(r[i]) {
        if i >= |h| {
          assert r[i] == StemEach(s[1..])[i - |h|];
        }
      }
    }
  }

  /** A stem is its own stem: making a file name twice changes nothing. */
  lemma StemIdempotent(name: string)
    ensures Stem(Stem(name)) == Stem(name)
  {
    StemCharset(name);
    StemIsOnePass(Stem(name));
    StemEachFixes(Stem(name));
  }

  lemma {:induction false} StemEachFixes(s: string)
    requires forall i :: 0 <= i < |s| ==> SlugChar(s[i])
    ensures StemEach(s) == s
    decreases |s|
  {
    if |s| > 0 {
      assert StemOf(s[0]) == [s[0]];
      StemEachFixes(s[1..]);
      assert s == [s[0]] + s[1..];
    }
  }

  /** Each space and each slash becomes its own dash: "A / B" is written as "a---b.md". */
  lemma SlugExample(name: string)
    requires name == "A / B"
    ensures Slug(name) == "a---b.md"
  {
    StemIsOnePass(name);
    assert StemEach("B") == "b";
    assert StemEach(" B") == "-b";
    assert StemEach("/ B") == "--b";
    assert StemEach(" / B") == "---b";
  }

  /** Two different names can share a file; the later model's file is the one left. */
  lemma SlugCollision(a: string, b: string)
    requires a == "A B" && b == "a-b"
    ensures a != b && Slug(a) == Slug(b)
  {
    StemIsOnePass(a);
    StemIsOnePass(b);
    assert StemEach("B") == "b";
    assert StemEach(" B") == "-b";
    assert StemEach("b") == "b";
    assert StemEach("-b") == "-b";
  }

  // ---------------------------------------------------------------- document bodies

  /** The text of one model's file. */
  function DocBody(name: string, description: Json, systemPrompt: Json, show: Json -> string): string {
    "## " + name + "\n\n" + "## Description\n\n" + ToText(description, show) + "\n\n"
      + "## System Prompt\n\n" + ToText(systemPrompt, show) + "\n"
  }

  /** The title of a model document: the first line, after `## `. */
  function TitleOf(doc: string): Option<string> {
    if IsPrefix("## ", doc) then Some(Split(doc[3..], '\n')[0]) else None
  }

  lemma TitleOfLine(name: string, rest: string)
    requires '\n' !in name && |rest| > 0 && rest[0] == '\n'
    ensures TitleOf("## " + name + rest) == Some(name)
  {
    var doc := "## " + name + rest;
    assert doc[..3] == "## " && doc[3..] == name + rest;
    SplitPrefix(name, rest, '\n');
    assert Split(rest, '\n')[0] == "";
    assert name + "" == name;
  }

  /** The document's first line gives back a single-line model name. */
  lemma TitleRoundTrip(name: string, description: Json, systemPrompt: Json, show: Json -> string)
    requires '\n' !in name
    ensures TitleOf(DocBody(name, description, systemPrompt, show)) == Some(name)
  {
    var rest := "\n\n" + "## Description\n\n" + ToText(description, show) + "\n\n"
                + "## System Prompt\n\n" + ToText(systemPrompt, show) + "\n";
    assert DocBody(name, description, systemPrompt, show) == "## " + name + rest;
    TitleOfLine(name, rest);
  }

  // ---------------------------------------------------------------- the directory

  /** `item.get("name", "Unknown Model")`. */
  function NameValue(item: Members): Json {
    GetOr(item, "name", Str("Unknown Model"))
  }

  /** `.lower()` only works on a string name; any other value raises. */
  predicate NameOk(item: Members) {
    NameValue(item).Str?
  }

  /** The text of the `AttributeError` that `.lower()` raises on a name that is not a string. */
  function LowerError(name: Json): string {
    "'" + TypeName(name) + "' object has no attribute 'lower'"
  }

  function FileOf(item: Members): string
    requires NameOk(item)
  {
    Slug(NameValue(item).s)
  }

  function BodyOf(item: Members, show: Json -> string): string
    requires NameOk(item)
  {
    DocBody(NameValue(item).s, GetOr(item, "info.meta.description", Str("")),
            GetOr(item, "info.params.system", Str("")), show)
  }

  /** A directory after writing `(file name, contents)` pairs in order: a later write replaces an earlier one. */
  function Written(writes: seq<(string, string)>): map<string, string>
    decreases |writes|
  {
    if |writes| == 0 then map[]
    else
      var n := |writes| - 1;
      Written(writes[..n])[writes[n].0 := writes[n].1]
  }

  /** The position of the last write to `f`, or -1 when there is none. */
  function LastWriter(writes: seq<(string, string)>, f: string): (j: int)
    ensures -1 <= j < |writes|
    ensures j >= 0 ==> writes[j].0 == f
    ensures forall k :: j < k < |writes| ==> writes[k].0 != f
    decreases |writes|
  {
    if |writes| == 0 then -1
    else if writes[|writes| - 1].0 == f then |writes| - 1
    else LastWriter(writes[..|writes| - 1], f)
  }

  /**
   * Every write leaves a file and there is no other file; a file holds the
   * contents of the last write to its name.
   */
  lemma {:induction false} LastWriteWins(writes: seq<(string, string)>, f: string)
    ensures f in Written(writes) <==> LastWriter(writes, f) >= 0
    ensures f in Written(writes) ==> Written(writes)[f] == writes[LastWriter(writes, f)].1
    decreases |writes|
  {
    if |writes| > 0 {
      var n := |writes| - 1;
      var init := writes[..n];
      LastWriteWins(init, f);
      if writes[n].0 != f && LastWriter(init, f) >= 0 {
        assert init[LastWriter(init, f)] == writes[LastWriter(init, f)];
      }
    }
  }

  /** The file name and contents each item is written as. */
  function Writes(items: seq<Members>, show: Json -> string): (w: seq<(string, string)>)
    requires forall j :: 0 <= j < |items| ==> NameOk(items[j])
    ensures |w| == |items|
    ensures forall j :: 0 <= j < |items| ==> w[j] == (FileOf(items[j]), BodyOf(items[j], show))
  {
    seq(|items|, j requires 0 <= j < |items| => (FileOf(items[j]), BodyOf(items[j], show)))
  }

  /** Every item's file is in the directory, holding the document of the last item with that file name. */
  lemma EveryItemHasFile(items: seq<Members>, show: Json -> string, j: int)
    requires forall k :: 0 <= k < |items| ==> NameOk(items[k])
    requires 0 <= j < |items|
    ensures FileOf(items[j]) in Written(Writes(items, show))
    ensures LastWriter(Writes(items, show), FileOf(items[j])) >= j
  {
    LastWriteWins(Writes(items, show), FileOf(items[j]));
  }

  lemma WritesStep(items: seq<Members>, i: int, show: Json -> string)
    requires 0 <= i < |items|
    requires forall j :: 0 <= j <= i ==> NameOk(items[j])
    ensures Written(Writes(items[..i + 1], show)) == Written(Writes(items[..i], show))[FileOf(items[i]) := BodyOf(items[i], show)]
  {
    var w := Writes(items[..i + 1], show);
    assert w[..i] == Writes(items[..i], show);
  }

  /**
   * The loop that writes the files. It stops at the first item whose name is
   * not a string; the files written before it stay.
   */
  method WriteIndividualDocs(items: seq<Members>, show: Json -> string) returns (files: map<string, string>, error: Option<string>)
    ensures error.None? <==> forall j :: 0 <= j < |items| ==> NameOk(items[j])
    ensures error.None? ==> files == Written(Writes(items, show))
    ensures error.Some? ==>
              exists n :: 0 <= n < |items| && !NameOk(items[n])
                          && (forall j :: 0 <= j < n ==> NameOk(items[j]))
                          && files == Written(Writes(items[..n], show))
                          && error == Some(LowerError(NameValue(items[n])))
  {
    files := map[];
    for i := 0 to |items|
      invariant forall j :: 0 <= j < i ==> NameOk(items[j])
      invariant files == Written(Writes(items[..i], show))
    {
      var modelName := GetOr(items[i], "name", Str("Unknown Model"));
      if !modelName.Str? {
        return files, Some(LowerError(modelName));
      }
      var filename := Slug(modelName.s);
      var description := GetOr(items[i], "info.meta.description", Str(""));
      var systemPrompt := GetOr(items[i], "info.params.system", Str(""));
      WritesStep(items, i, show);
      files := files[filename := DocBody(modelName.s, description, systemPrompt, show)];
    }
    assert items[..|items|] == items;
    return files, None;
  }
}
