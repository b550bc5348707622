/**
 * The route-handler patcher: a script that rewrites three admin route files.
 * First it moves a `const { id } = await params;` line that was pasted inside
 * the parameter list of a GET, PUT or DELETE handler to the start of the
 * handler's body; then it removes every `const { id } = await params;` line
 * that directly follows another one. Reading and writing the files is not
 * modelled: the patch is a function from file content to file content.
 */
module FixParams {
  import opened Text
  import opened Seqs

  /** The destructuring statement the script looks for, without indentation. */
  const Stmt: string := "const { id } = await params;"

  /** The HTTP methods whose handler header the relocation rewrites. */
  const Methods: seq<string> := ["GET", "PUT", "DELETE"]

  /** The text before the method name in a handler header. */
  const Export: string := "export async function "

  /** The parameter list of a handler header, up to the closing brace of the parameter type. */
  const Params: string := "(\n  request: NextRequest,\n  { params }: { params: Promise<{ id: string }> }"

  /** The statement on its own indented line. */
  const StmtLine: string := "\n  " + Stmt

  /** The end of a parameter list and the opening of the body. */
  const Close: string := "\n) {"

  /** The captured group: the handler header up to the closing brace of the parameter type. */
  function Header(m: string): string
  {
    Export + m + Params
  }

  /** The malformed shape: the statement sits inside the parameter list. */
  function Malformed(m: string): string
  {
    Header(m) + StmtLine + Close
  }

  /** The replacement: the parameter list is closed, then the statement opens the body. */
  function Fixed(m: string): string
  {
    Header(m) + Close + StmtLine
  }

  /** The first of `ms` whose malformed header starts `s`: the regex alternation tried in order. */
  function FirstMatch(s: string, ms: seq<string>): (r: Option<string>)
    ensures r.Some? ==> r.value in ms && StartsWith(s, Malformed(r.value))
  {
    if ms == [] then None
    else if StartsWith(s, Malformed(ms[0])) then Some(ms[0])
    else FirstMatch(s, ms[1..])
  }

  /** The method whose malformed header starts `s`, if any (`GET|PUT|DELETE`). */
  function MatchAt(s: string): (r: Option<string>)
    ensures r.Some? ==> r.value in Methods && StartsWith(s, Malformed(r.value))
  {
    FirstMatch(s, Methods)
  }

  /** `re.sub(pattern, replacement, s)`: leftmost, non-overlapping replacement scanning left to right. */
  function Substitute(s: string): (r: string)
    decreases |s|
  {
    if s == [] then []
    else match MatchAt(s)
      case Some(m) => Fixed(m) + Substitute(s[|Malformed(m)|..])
      case None => [s[0]] + Substitute(s[1..])
  }

  /** No suffix of `s` starts with a malformed header. */
  predicate NoMatch(s: string)
  {
    forall i :: 0 <= i <= |s| ==> MatchAt(s[i..]).None?
  }

  /** Content without the exact malformed shape is left unchanged. */
  lemma {:induction false} SubstituteNoMatch(s: string)
    requires NoMatch(s)
    ensures Substitute(s) == s
    decreases |s|
  {
    if s != [] {
      assert MatchAt(s[0..]).None?;
      assert s[0..] == s;
      forall i | 0 <= i <= |s[1..]| ensures MatchAt(s[1..][i..]).None? {
        assert s[1..][i..] == s[i + 1..];
      }
      SubstituteNoMatch(s[1..]);
    }
  }

  /** A malformed header is replaced by the fixed one: the statement now follows `) {`. */
  lemma SubstituteRelocates(m: string, rest: string)
    requires m in Methods
    ensures Substitute(Malformed(m) + rest) == Header(m) + Close + StmtLine + Substitute(rest)
  {
    var s := Malformed(m) + rest;
    MatchesOwnHeader(m, rest);
    SubstituteReplaces(s, m);
    assert s[|Malformed(m)|..] == rest;
  }

  /** A malformed GET, PUT or DELETE header is recognised as that method's. */
  lemma MatchesOwnHeader(m: string, rest: string)
    requires m in Methods
    ensures MatchAt(Malformed(m) + rest) == Some(m)
  {
    var s := Malformed(m) + rest;
    assert StartsWith(s, Malformed(m));
    MalformedLetter(m, rest, 0);
    assert Methods[1..] == ["PUT", "DELETE"] && Methods[2..] == ["DELETE"];
    if m == "GET" {
      assert FirstMatch(s, Methods) == Some("GET");
    } else {
      NotMalformed(s, "GET", 0);
      if m == "PUT" {
        assert FirstMatch(s, Methods[1..]) == Some("PUT");
      } else {
        NotMalformed(s, "PUT", 0);
        assert m == "DELETE";
        assert FirstMatch(s, Methods[2..]) == Some("DELETE");
        assert FirstMatch(s, Methods[1..]) == FirstMatch(s, Methods[2..]);
      }
    }
  }

  /** The character at position `|Export| + k` of a malformed header is the `k`-th letter of the method. */
  lemma MalformedLetter(m: string, rest: string, k: nat)
    requires k < |m|
    ensures |Export| + k < |Malformed(m)|
    ensures (Malformed(m) + rest)[|Export| + k] == m[k]
  {
    assert (Malformed(m) + rest)[|Export| + k] == Header(m)[|Export| + k];
  }

  /** A text whose method letter differs from `m`'s does not start with `m`'s malformed header. */
  lemma NotMalformed(s: string, m: string, k: nat)
    requires k < |m| && |Export| + k < |s| && s[|Export| + k] != m[k]
    ensures !StartsWith(s, Malformed(m))
  {
    MalformedLetter(m, [], k);
    assert Malformed(m) + [] == Malformed(m);
  }

  /** The relocation only fires for GET, PUT and DELETE: a POST header is never matched. */
  lemma PostHeaderNotMatched(rest: string)
    ensures MatchAt(Malformed("POST") + rest).None?
  {
    var s := Malformed("POST") + rest;
    MalformedLetter("POST", rest, 0);
    MalformedLetter("POST", rest, 1);
    NotMalformed(s, "GET", 0);
    NotMalformed(s, "PUT", 1);
    NotMalformed(s, "DELETE", 0);
  }

  /** Where no header starts, one character is copied. */
  lemma SubstituteCopies(s: string)
    requires s != [] && MatchAt(s).None?
    ensures Substitute(s) == [s[0]] + Substitute(s[1..])
  {
  }

  /** Where a malformed header starts, it is replaced and scanning resumes after it. */
  lemma SubstituteReplaces(s: string, m: string)
    requires s != [] && MatchAt(s) == Some(m)
    ensures Substitute(s) == Fixed(m) + Substitute(s[|Malformed(m)|..])
  {
  }

  /** The replacement only moves a line: the length of the text is kept. */
  lemma {:induction false} SubstituteKeepsLength(s: string)
    ensures |Substitute(s)| == |s|
    decreases |s|
  {
    if s != [] {
      if MatchAt(s).None? {
        SubstituteCopies(s);
        SubstituteKeepsLength(s[1..]);
      } else {
        var m := MatchAt(s).value;
        SubstituteReplaces(s, m);
        SubstituteKeepsLength(s[|Malformed(m)|..]);
      }
    }
  }

  // ---------------------------------------------------------------------
  // Removal of repeated statement lines
  // ---------------------------------------------------------------------

  /** `line.strip() == 'const { id } = await params;'` */
  predicate IsStmt(line: string)
  {
    Strip(line) == Stmt
  }

  /*
   * The dedupe pass and its properties are stated for an arbitrary line test
   * `dup`; the script's test is `IsStmt`. Keeping the test abstract keeps the
   * proofs independent of how `strip` works.
   */

  /**
   * The lines the dedupe loop keeps from `lines`: a line passing `dup` is
   * dropped when the last line kept so far passes `dup` too.
   */
  function Dedupe(lines: seq<string>, dup: string -> bool): (r: seq<string>)
  {
    if lines == [] then []
    else
      var kept := Dedupe(lines[..|lines| - 1], dup);
      var line := lines[|lines| - 1];
      if dup(line) && kept != [] && dup(kept[|kept| - 1]) then kept else kept + [line]
  }

  /** The dedupe loop of the script, for the line test `dup`; `prev` plays its `prev_line`. */
  method DedupeLines(lines: seq<string>, dup: string -> bool) returns (out: seq<string>)
    ensures out == Dedupe(lines, dup)
  {
    out := [];
    var prev: Option<string> := None;
    var i := 0;
    while i < |lines|
      invariant 0 <= i <= |lines|
      invariant out == Dedupe(lines[..i], dup)
      invariant prev == (if out == [] then None else Some(out[|out| - 1]))
    {
      var line := lines[i];
      DedupeStep(lines, i, dup);
      if dup(line) && prev.Some? && dup(prev.value) {
        i := i + 1;
        continue;
      }
      out := out + [line];
      prev := Some(line);
      i := i + 1;
    }
    assert lines[..i] == lines;
  }

  /** One more input line: the equation the loop body follows. */
  lemma DedupeStep(lines: seq<string>, i: nat, dup: string -> bool)
    requires i < |lines|
    ensures var kept := Dedupe(lines[..i], dup);
      Dedupe(lines[..i + 1], dup) ==
        if dup(lines[i]) && kept != [] && dup(kept[|kept| - 1]) then kept else kept + [lines[i]]
  {
    assert lines[..i + 1][..i] == lines[..i];
  }

  /** No two neighbouring lines both pass `dup`. */
  predicate NoAdjacent(lines: seq<string>, dup: string -> bool)
  {
    forall i :: 0 <= i < |lines| - 1 ==> !(dup(lines[i]) && dup(lines[i + 1]))
  }

  /** The output is the input with some lines deleted, order kept. */
  lemma {:induction false} DedupeSubsequence(lines: seq<string>, dup: string -> bool)
    ensures IsSubsequence(Dedupe(lines, dup), lines)
  {
    if lines != [] {
      var init := lines[..|lines| - 1];
      var line := lines[|lines| - 1];
      DedupeSubsequence(init, dup);
      assert init + [line] == lines;
      var kept := Dedupe(init, dup);
      if dup(line) && kept != [] && dup(kept[|kept| - 1]) {
        SubsequenceExtend(kept, init, line);
      } else {
        SubsequenceAppend(kept, init, line);
      }
    }
  }

  /** The output never holds two statement lines in a row. */
  lemma {:induction false} DedupeNoAdjacent(lines: seq<string>, dup: string -> bool)
    ensures NoAdjacent(Dedupe(lines, dup), dup)
  {
    if lines != [] {
      DedupeNoAdjacent(lines[..|lines| - 1], dup);
    }
  }

  /** Every line that fails `dup` (given as `keep`) is kept, in its original order. */
  lemma {:induction false} DedupeKeepsOthers(lines: seq<string>, dup: string -> bool, keep: string -> bool)
    requires forall l :: keep(l) == !dup(l)
    ensures Filter(Dedupe(lines, dup), keep) == Filter(lines, keep)
  {
    if lines != [] {
      var init := lines[..|lines| - 1];
      var line := lines[|lines| - 1];
      DedupeKeepsOthers(init, dup, keep);
      assert init + [line] == lines;
      FilterAppend(init, [line], keep);
      var kept := Dedupe(init, dup);
      if !(dup(line) && kept != [] && dup(kept[|kept| - 1])) {
        FilterAppend(kept, [line], keep);
      }
    }
  }

  /**
   * A run of statement lines of any length after a kept line that is not a
   * statement collapses to its first line: the comparison is with the last
   * kept line, not with the previous input line.
   */
  lemma {:induction false} DedupeCollapsesRun(prefix: seq<string>, run: seq<string>, dup: string -> bool)
    requires |run| >= 1
    requires forall k :: 0 <= k < |run| ==> dup(run[k])
    requires Dedupe(prefix, dup) == [] || !dup(Dedupe(prefix, dup)[|Dedupe(prefix, dup)| - 1])
    ensures Dedupe(prefix + run, dup) == Dedupe(prefix, dup) + [run[0]]
    decreases |run|
  {
    if |run| == 1 {
      assert (prefix + run)[..|prefix + run| - 1] == prefix;
    } else {
      var init := run[..|run| - 1];
      DedupeCollapsesRun(prefix, init, dup);
      assert (prefix + run)[..|prefix + run| - 1] == prefix + init;
    }
  }

  /** Text already free of repeated statement lines is a fixed point, and only such text is. */
  lemma DedupeFixedPoint(lines: seq<string>, dup: string -> bool)
    ensures Dedupe(lines, dup) == lines <==> NoAdjacent(lines, dup)
  {
    DedupeNoAdjacent(lines, dup);
    if NoAdjacent(lines, dup) {
      DedupeOfClean(lines, dup);
    }
  }

  lemma {:induction false} DedupeOfClean(lines: seq<string>, dup: string -> bool)
    requires NoAdjacent(lines, dup)
    ensures Dedupe(lines, dup) == lines
  {
    if lines != [] {
      var init := lines[..|lines| - 1];
      assert NoAdjacent(init, dup) by {
        forall i | 0 <= i < |init| - 1 ensures !(dup(init[i]) && dup(init[i + 1])) {
          assert init[i] == lines[i] && init[i + 1] == lines[i + 1];
        }
      }
      DedupeOfClean(init, dup);
      var line := lines[|lines| - 1];
      if init != [] {
        assert init[|init| - 1] == lines[|lines| - 2];
        assert !(dup(line) && dup(init[|init| - 1]));
      }
      assert Dedupe(lines, dup) == init + [line];
      assert init + [line] == lines;
    }
  }

  /** Running the dedupe pass twice removes nothing more. */
  lemma DedupeIdempotent(lines: seq<string>, dup: string -> bool)
    ensures Dedupe(Dedupe(lines, dup), dup) == Dedupe(lines, dup)
  {
    DedupeNoAdjacent(lines, dup);
    DedupeOfClean(Dedupe(lines, dup), dup);
  }

  // ---------------------------------------------------------------------
  // The whole patch
  // ---------------------------------------------------------------------

  /** The content written back: relocation, then dedupe over `content.split('\n')`, joined with '\n'. */
  function Patched(content: string): string
  {
    Join(Dedupe(Split(Substitute(content), '\n'), IsStmt), '\n')
  }

  /** The script's two steps over one file's content. */
  method Patch(content: string) returns (patched: string)
    ensures patched == Join(Dedupe(Split(Substitute(content), '\n'), IsStmt), '\n')
    ensures patched == Patched(content)
  {
    var relocated := Substitute(content);
    var kept := DedupeLines(Split(relocated, '\n'), IsStmt);
    patched := Join(kept, '\n');
  }

  /** A file that needs neither step is written back unchanged. */
  lemma PatchOfCleanFile(content: string)
    requires NoMatch(content)
    requires NoAdjacent(Split(content, '\n'), IsStmt)
    ensures Join(Dedupe(Split(Substitute(content), '\n'), IsStmt), '\n') == content
  {
    SubstituteNoMatch(content);
    DedupeOfClean(Split(content, '\n'), IsStmt);
    JoinSplit(content, '\n');
  }

  /**
   * Running the script again on its output changes nothing, provided the
   * output holds no malformed header. That proviso is needed: the dedupe can
   * create a malformed header, as when a header is followed by two statement
   * lines before `) {`, and a second run then relocates its statement.
   */
  lemma PatchAgain(content: string)
    requires NoMatch(Patched(content))
    ensures Patched(Patched(content)) == Patched(content)
  {
    var lines := Split(Substitute(content), '\n');
    var kept := Dedupe(lines, IsStmt);
    assert |kept| >= 1 by {
      DedupeNonEmpty(lines, IsStmt);
    }
    assert forall k :: 0 <= k < |kept| ==> '\n' !in kept[k] by {
      DedupeSubsequence(lines, IsStmt);
      SubsequenceMembers(kept, lines);
    }
    SubstituteNoMatch(Patched(content));
    SplitJoin(kept, '\n');
    DedupeIdempotent(lines, IsStmt);
  }

  /** Some line is always kept from a non-empty input. */
  lemma DedupeNonEmpty(lines: seq<string>, dup: string -> bool)
    requires |lines| >= 1
    ensures |Dedupe(lines, dup)| >= 1
  {
  }
}
