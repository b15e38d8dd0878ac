/**
 The dedupe plan as a shell script: how it is written, and how a POSIX shell reads it back (quoting by section 2.2
 and token recognition by section 2.3 of the Shell Command Language in POSIX.1-2017).
 */
module DedupeScript {
  import opened Base
  import opened Text

  /** A verified group; `reclaimable` is the saved space as it is displayed. */
  datatype DuplicateGroup = DuplicateGroup(hash: string, files: seq<string>, keep: nat, reclaimable: string)

  // ---- Writing ---------------------------------------------------------------------------------------------------

  /** Single quotes around the text; a single quote inside is closed, put in double quotes and reopened. */
  function ShellQuote(v: string): string {
    "'" + QuoteBody(v) + "'"
  }

  function QuoteBody(v: string): string {
    if v == "" then "" else (if v[0] == '\'' then "'\"'\"'" else [v[0]]) + QuoteBody(v[1..])
  }

  /** A path in a comment: line breaks are spelled out. */
  function CommentPath(path: string): string {
    if path == "" then ""
    else (if path[0] == '\r' then "\\r" else if path[0] == '\n' then "\\n" else [path[0]]) + CommentPath(path[1..])
  }

  const BIN := "FLEETTY_BIN"

  // The functions below give the text they write followed by `rest`, the text written after it.

  function LinkCommand(keep: string, duplicate: string, hash: string, rest: string): string {
    "\"$" + (BIN + ("\"" + LinkArguments(keep, duplicate, hash, rest)))
  }

  function LinkArguments(keep: string, duplicate: string, hash: string, rest: string): string {
    " " + ("dedupe-link" + (" " + ("--keep" + (" " + (ShellQuote(keep) +
    (" " + ("--replace" + (" " + (ShellQuote(duplicate) +
    (" " + ("--sha256" + (" " + (ShellQuote(hash) + ("\n" + rest))))))))))))))
  }

  /** The checks made on a group before it is written. */
  predicate ValidGroup(g: DuplicateGroup) {
    && 2 <= |g.files| && g.keep < |g.files|
    && |g.hash| == 64 && (forall i :: 0 <= i < |g.hash| ==> IsHexDigit(g.hash[i]))
  }

  predicate OneLine(s: string) {
    forall i :: 0 <= i < |s| ==> s[i] != '\n'
  }

  function GroupLabel(g: DuplicateGroup, index: nat): string
    requires ValidGroup(g)
  {
    " GROUP " + Decimal(index + 1) + " · " + g.hash[..12] + " · " + Decimal(|g.files|) + " copies · "
    + g.reclaimable + " reclaimable"
  }

  function CommentLine(text: string, rest: string): string {
    "#" + (text + ("\n" + rest))
  }

  /** One comment and one command for every file from `index` on that is not the keeper. */
  function LinkLines(g: DuplicateGroup, index: nat, rest: string): string
    requires g.keep < |g.files| && index <= |g.files|
    decreases |g.files| - index
  {
    if index == |g.files| then rest
    else if index == g.keep then LinkLines(g, index + 1, rest)
    else FileLines(g.files[g.keep], g.files[index], g.hash, LinkLines(g, index + 1, rest))
  }

  function FileLines(keep: string, file: string, hash: string, rest: string): string {
    CommentLine(" LINK " + CommentPath(file), LinkCommand(keep, file, hash, rest))
  }

  function GroupLines(g: DuplicateGroup, index: nat, rest: string): string
    requires ValidGroup(g)
  {
    "\n" + CommentLine(GroupLabel(g, index), CommentLine(" KEEP " + CommentPath(g.files[g.keep]), LinkLines(g, 0, rest)))
  }

  /** The script after its fixed header, from group `index` on. */
  function Body(groups: seq<DuplicateGroup>, index: nat, summary: string): string
    requires index <= |groups| && forall g :: g in groups ==> ValidGroup(g)
    decreases |groups| - index
  {
    if index == |groups| then "\n" + ("echo" + (" " + (ShellQuote(summary) + "\n")))
    else GroupLines(groups[index], index, Body(groups, index + 1, summary))
  }

  // ---- Reading ---------------------------------------------------------------------------------------------------

  type Command = seq<string>

  /** Characters that an unquoted word may contain literally in every position. */
  predicate IsPlain(c: char) {
    || 'a' <= c <= 'z' || 'A' <= c <= 'Z' || '0' <= c <= '9' || c in {'-', '_', '.', '/', ':', ',', '+', '@', '%'}
  }

  predicate IsNameChar(c: char) {
    'a' <= c <= 'z' || 'A' <= c <= 'Z' || '0' <= c <= '9' || c == '_'
  }

  function WithWord(words: Command, word: Option<string>): Command {
    if word.Some? then words + [word.value] else words
  }

  function AddCommand(c: Command, rest: Option<seq<Command>>): Option<seq<Command>> {
    if rest.None? then None else if c == [] then rest else Some([c] + rest.value)
  }

  /** Reads unquoted text. `word` is the word being built, `words` the words before it; None is text not understood. */
  function Unquoted(t: string, word: Option<string>, words: Command, env: map<string, string>): Option<seq<Command>>
    decreases |t|, 0
  {
    if t == "" then AddCommand(WithWord(words, word), Some([]))
    else if t[0] == '\n' then AddCommand(WithWord(words, word), Unquoted(t[1..], None, [], env))
    else if t[0] == ' ' || t[0] == '\t' then Unquoted(t[1..], None, WithWord(words, word), env)
    else if t[0] == '#' && word.None? then Comment(t[1..], words, env)
    else if t[0] == '\'' then SingleQuoted(t[1..], Built(word), words, env)
    else if t[0] == '"' then DoubleQuoted(t[1..], Built(word), words, env)
    else if IsPlain(t[0]) then Unquoted(t[1..], Some(Built(word) + [t[0]]), words, env)
    else None
  }

  function Built(word: Option<string>): string {
    if word.Some? then word.value else ""
  }

  /** A comment runs up to, and not including, the next line break. */
  function Comment(t: string, words: Command, env: map<string, string>): Option<seq<Command>>
    decreases |t|, 1
  {
    if t == "" || t[0] == '\n' then Unquoted(t, None, words, env) else Comment(t[1..], words, env)
  }

  /** Between single quotes every character stands for itself. */
  function SingleQuoted(t: string, word: string, words: Command, env: map<string, string>): Option<seq<Command>>
    decreases |t|, 0
  {
    if t == "" then None
    else if t[0] == '\'' then Unquoted(t[1..], Some(word), words, env)
    else SingleQuoted(t[1..], word + [t[0]], words, env)
  }

  /** Between double quotes parameters are still expanded; command substitution and escapes are not understood. */
  function DoubleQuoted(t: string, word: string, words: Command, env: map<string, string>): Option<seq<Command>>
    decreases |t|, 0
  {
    if t == "" || t[0] == '`' || t[0] == '\\' then None
    else if t[0] == '"' then Unquoted(t[1..], Some(word), words, env)
    else if t[0] == '$' then
      var n := NameLength(t[1..]);
      if n == 0 || t[1..][..n] !in env then None
      else DoubleQuoted(t[1..][n..], word + env[t[1..][..n]], words, env)
    else DoubleQuoted(t[1..], word + [t[0]], words, env)
  }

  function NameLength(t: string): (n: nat)
    ensures n <= |t|
  {
    if t != "" && IsNameChar(t[0]) then 1 + NameLength(t[1..]) else 0
  }

  // ---- What is written is what is read ---------------------------------------------------------------------------

  lemma {:induction false} QuotedTextIsRead(v: string, rest: string, word: string, words: Command, env: map<string, string>)
    ensures SingleQuoted(QuoteBody(v) + ("'" + rest), word, words, env) == Unquoted(rest, Some(word + v), words, env)
    decreases |v|
  {
    if v == "" {
      assert QuoteBody(v) + ("'" + rest) == "'" + rest;
      assert word + v == word && ("'" + rest)[1..] == rest;
    } else {
      var tail := QuoteBody(v[1..]) + ("'" + rest);
      assert word + [v[0]] + v[1..] == word + v;
      QuotedTextIsRead(v[1..], rest, word + [v[0]], words, env);
      if v[0] == '\'' {
        EscapedQuoteIsRead(tail, word, words, env);
        assert QuoteBody(v) + ("'" + rest) == "'\"'\"'" + tail;
      } else {
        assert QuoteBody(v) + ("'" + rest) == [v[0]] + tail;
        assert ([v[0]] + tail)[1..] == tail;
      }
    }
  }

  /** The five characters that stand for a single quote inside single quotes. */
  lemma EscapedQuoteIsRead(tail: string, word: string, words: Command, env: map<string, string>)
    ensures SingleQuoted("'\"'\"'" + tail, word, words, env) == SingleQuoted(tail, word + "'", words, env)
  {
    var t0 := "'\"'\"'" + tail;
    var t1 := "\"'\"'" + tail;
    var t2 := "'\"'" + tail;
    var t3 := "\"'" + tail;
    var t4 := "'" + tail;
    assert t0[1..] == t1 && t1[1..] == t2 && t2[1..] == t3 && t3[1..] == t4 && t4[1..] == tail;
    assert SingleQuoted(t0, word, words, env) == Unquoted(t1, Some(word), words, env);
    assert Unquoted(t1, Some(word), words, env) == DoubleQuoted(t2, word, words, env);
    assert DoubleQuoted(t2, word, words, env) == DoubleQuoted(t3, word + "'", words, env);
    assert DoubleQuoted(t3, word + "'", words, env) == Unquoted(t4, Some(word + "'"), words, env);
  }

  /** Any text survives quoting, whatever follows it. */
  lemma ShellQuoteIsRead(v: string, rest: string, words: Command, env: map<string, string>)
    ensures Unquoted(ShellQuote(v) + rest, None, words, env) == Unquoted(rest, Some(v), words, env)
  {
    assert ShellQuote(v) + rest == "'" + (QuoteBody(v) + ("'" + rest));
    assert ("'" + (QuoteBody(v) + ("'" + rest)))[1..] == QuoteBody(v) + ("'" + rest);
    QuotedTextIsRead(v, rest, "", words, env);
    assert "" + v == v;
  }

  predicate AllPlain(w: string) {
    forall i :: 0 <= i < |w| ==> IsPlain(w[i])
  }

  lemma {:induction false} PlainWordIsRead(w: string, rest: string, word: Option<string>, words: Command,
                                           env: map<string, string>)
    requires AllPlain(w)
    ensures w != "" ==> Unquoted(w + rest, word, words, env) == Unquoted(rest, Some(Built(word) + w), words, env)
    decreases |w|
  {
    if w != "" {
      assert (w + rest)[1..] == w[1..] + rest && (w + rest)[0] == w[0];
      assert Built(word) + [w[0]] + w[1..] == Built(word) + w;
      PlainWordIsRead(w[1..], rest, Some(Built(word) + [w[0]]), words, env);
      if w[1..] == "" {
        assert w[1..] + rest == rest && Built(word) + [w[0]] == Built(word) + w;
      }
    }
  }

  lemma {:induction false} CommentIsSkipped(text: string, rest: string, words: Command, env: map<string, string>)
    requires forall i :: 0 <= i < |text| ==> text[i] != '\n'
    ensures Comment(text + ("\n" + rest), words, env) == Unquoted("\n" + rest, None, words, env)
    decreases |text|
  {
    if text == "" {
      assert text + ("\n" + rest) == "\n" + rest;
    } else {
      assert (text + ("\n" + rest))[1..] == text[1..] + ("\n" + rest);
      CommentIsSkipped(text[1..], rest, words, env);
    }
  }

  /** A path in a comment cannot end the comment. */
  lemma {:induction false} CommentPathHasNoBreak(path: string)
    ensures forall i :: 0 <= i < |CommentPath(path)| ==> CommentPath(path)[i] != '\n'
  {
    if path != "" {
      CommentPathHasNoBreak(path[1..]);
    }
  }

  predicate StopsName(t: string) {
    t == "" || !IsNameChar(t[0])
  }

  lemma {:induction false} NameIsRead(name: string, rest: string)
    requires (forall i :: 0 <= i < |name| ==> IsNameChar(name[i])) && StopsName(rest)
    ensures NameLength(name + rest) == |name|
    decreases |name|
  {
    if name == "" {
      assert name + rest == rest;
    } else {
      assert (name + rest)[1..] == name[1..] + rest;
      NameIsRead(name[1..], rest);
    }
  }

  lemma ExpansionIsRead(name: string, rest: string, env: map<string, string>)
    requires name != "" && (forall i :: 0 <= i < |name| ==> IsNameChar(name[i])) && name in env
    ensures Unquoted("\"$" + (name + ("\"" + rest)), None, [], env) == Unquoted(rest, Some(env[name]), [], env)
  {
    var t3 := "\"" + rest;
    var t2 := name + t3;
    var t1 := "$" + t2;
    assert ("\"$" + t2)[1..] == t1 && t1[1..] == t2 && t3[1..] == rest;
    NameIsRead(name, t3);
    assert t2[..|name|] == name && t2[|name|..] == t3;
    assert "" + env[name] == env[name];
    assert DoubleQuoted(t1, "", [], env) == DoubleQuoted(t3, env[name], [], env);
  }

  /** A blank, a plain word and another blank after a finished word. */
  lemma WordIsRead(w: string, rest: string, before: string, words: Command, env: map<string, string>)
    requires AllPlain(w) && w != ""
    ensures Unquoted(" " + (w + (" " + rest)), Some(before), words, env) == Unquoted(rest, None, words + [before, w], env)
  {
    var t := w + (" " + rest);
    assert (" " + t)[1..] == t && (" " + rest)[1..] == rest;
    PlainWordIsRead(w, " " + rest, None, words + [before], env);
    assert Built(None) + w == w;
    assert words + [before] + [w] == words + [before, w];
  }

  /** A plain word and a blank where a word may start. */
  lemma FirstWordIsRead(w: string, rest: string, words: Command, env: map<string, string>)
    requires AllPlain(w) && w != ""
    ensures Unquoted(w + (" " + rest), None, words, env) == Unquoted(rest, None, words + [w], env)
  {
    PlainWordIsRead(w, " " + rest, None, words, env);
    assert Built(None) + w == w && (" " + rest)[1..] == rest;
  }

  function LinkWords(bin: string, keep: string, duplicate: string, hash: string): Command {
    [bin, "dedupe-link", "--keep", keep, "--replace", duplicate, "--sha256", hash]
  }

  lemma ArgumentsAreRead(bin: string, keep: string, duplicate: string, hash: string, rest: string,
                         env: map<string, string>)
    ensures Unquoted(LinkArguments(keep, duplicate, hash, rest), Some(bin), [], env)
         == AddCommand(LinkWords(bin, keep, duplicate, hash), Unquoted(rest, None, [], env))
  {
    var t3 := ShellQuote(duplicate) + (" " + ("--sha256" + (" " + (ShellQuote(hash) + ("\n" + rest)))));
    var t2 := ShellQuote(keep) + (" " + ("--replace" + (" " + t3)));
    WordIsRead("dedupe-link", "--keep" + (" " + t2), bin, [], env);
    var w1 := [bin, "dedupe-link"];
    assert [] + [bin, "dedupe-link"] == w1;
    FirstWordIsRead("--keep", t2, w1, env);
    var w2 := w1 + ["--keep"];
    ShellQuoteIsRead(keep, " " + ("--replace" + (" " + t3)), w2, env);
    WordIsRead("--replace", t3, keep, w2, env);
    TailIsRead(duplicate, hash, rest, w2 + [keep, "--replace"], env);
    assert w2 + [keep, "--replace"] + [duplicate, "--sha256", hash] == LinkWords(bin, keep, duplicate, hash);
  }

  lemma TailIsRead(duplicate: string, hash: string, rest: string, words: Command, env: map<string, string>)
    ensures Unquoted(ShellQuote(duplicate) + (" " + ("--sha256" + (" " + (ShellQuote(hash) + ("\n" + rest))))), None, words, env)
         == AddCommand(words + [duplicate, "--sha256", hash], Unquoted(rest, None, [], env))
  {
    var t5 := "\n" + rest;
    var t4 := ShellQuote(hash) + t5;
    ShellQuoteIsRead(duplicate, " " + ("--sha256" + (" " + t4)), words, env);
    WordIsRead("--sha256", t4, duplicate, words, env);
    var w := words + [duplicate, "--sha256"];
    ShellQuoteIsRead(hash, t5, w, env);
    assert w + [hash] == words + [duplicate, "--sha256", hash];
    assert t5[1..] == rest;
  }

  lemma CommentLineIsRead(text: string, rest: string, env: map<string, string>)
    requires OneLine(text)
    ensures Unquoted(CommentLine(text, rest), None, [], env) == Unquoted(rest, None, [], env)
  {
    var t := text + ("\n" + rest);
    assert ("#" + t)[1..] == t && ("\n" + rest)[1..] == rest;
    CommentIsSkipped(text, rest, [], env);
  }

  // ---- The whole script ------------------------------------------------------------------------------------------

  /** The commands of one group, from file `index` on. */
  function GroupCommands(g: DuplicateGroup, index: nat, bin: string): seq<Command>
    requires g.keep < |g.files| && index <= |g.files|
    decreases |g.files| - index
  {
    if index == |g.files| then []
    else if index == g.keep then GroupCommands(g, index + 1, bin)
    else [LinkWords(bin, g.files[g.keep], g.files[index], g.hash)] + GroupCommands(g, index + 1, bin)
  }

  function AllCommands(groups: seq<DuplicateGroup>, index: nat, summary: string, bin: string): seq<Command>
    requires index <= |groups| && forall g :: g in groups ==> ValidGroup(g)
    decreases |groups| - index
  {
    if index == |groups| then [["echo", summary]]
    else assert ValidGroup(groups[index]); GroupCommands(groups[index], 0, bin) + AllCommands(groups, index + 1, summary, bin)
  }

  function Before(commands: seq<Command>, rest: Option<seq<Command>>): Option<seq<Command>> {
    if rest.None? then None else Some(commands + rest.value)
  }

  lemma {:induction false} LinkLinesAreRead(g: DuplicateGroup, index: nat, rest: string, bin: string,
                                            env: map<string, string>)
    requires g.keep < |g.files| && index <= |g.files| && BIN in env && env[BIN] == bin
    ensures Unquoted(LinkLines(g, index, rest), None, [], env)
         == Before(GroupCommands(g, index, bin), Unquoted(rest, None, [], env))
    decreases |g.files| - index
  {
    hide Unquoted, ShellQuote, CommentLine, Before;
    var last := Unquoted(rest, None, [], env);
    if index == |g.files| {
      NothingBefore(last);
    } else if index == g.keep {
      LinkLinesAreRead(g, index + 1, rest, bin, env);
    } else {
      LinkLinesAreRead(g, index + 1, rest, bin, env);
      LinkStep(g, index, LinkLines(g, index + 1, rest), GroupCommands(g, index + 1, bin), last, bin, env);
    }
  }

  lemma NothingBefore(last: Option<seq<Command>>)
    ensures Before([], last) == last
  {
    assert last.Some? ==> [] + last.value == last.value;
  }

  lemma LinkStep(g: DuplicateGroup, index: nat, more: string, others: seq<Command>, last: Option<seq<Command>>,
                 bin: string, env: map<string, string>)
    requires g.keep < |g.files| && index < |g.files| && BIN in env && env[BIN] == bin
    requires Unquoted(more, None, [], env) == Before(others, last)
    ensures Unquoted(FileLines(g.files[g.keep], g.files[index], g.hash, more), None, [], env)
         == Before([LinkWords(bin, g.files[g.keep], g.files[index], g.hash)] + others, last)
  {
    FileLinesAreRead(g.files[g.keep], g.files[index], g.hash, more, bin, env);
    AddedBefore(LinkWords(bin, g.files[g.keep], g.files[index], g.hash), others, last);
  }

  lemma FileLinesAreRead(keep: string, file: string, hash: string, more: string, bin: string, env: map<string, string>)
    requires BIN in env && env[BIN] == bin
    ensures Unquoted(FileLines(keep, file, hash, more), None, [], env)
         == AddCommand(LinkWords(bin, keep, file, hash), Unquoted(more, None, [], env))
  {
    CommentPathHasNoBreak(file);
    CommentLineIsRead(" LINK " + CommentPath(file), LinkCommand(keep, file, hash, more), env);
    ExpansionIsRead(BIN, LinkArguments(keep, file, hash, more), env);
    ArgumentsAreRead(bin, keep, file, hash, more, env);
  }

  lemma AddedBefore(first: Command, others: seq<Command>, last: Option<seq<Command>>)
    requires first != []
    ensures AddCommand(first, Before(others, last)) == Before([first] + others, last)
  {
    if last.Some? {
      assert [first] + (others + last.value) == ([first] + others) + last.value;
    }
  }

  lemma GroupLinesAreRead(g: DuplicateGroup, index: nat, rest: string, bin: string, env: map<string, string>)
    requires ValidGroup(g) && OneLine(g.reclaimable) && BIN in env && env[BIN] == bin
    ensures Unquoted(GroupLines(g, index, rest), None, [], env)
         == Before(GroupCommands(g, 0, bin), Unquoted(rest, None, [], env))
  {
    var links := LinkLines(g, 0, rest);
    var kept := CommentLine(" KEEP " + CommentPath(g.files[g.keep]), links);
    var labelled := CommentLine(GroupLabel(g, index), kept);
    assert ("\n" + labelled)[1..] == labelled;
    GroupLabelIsOneLine(g, index);
    CommentLineIsRead(GroupLabel(g, index), kept, env);
    CommentPathHasNoBreak(g.files[g.keep]);
    CommentLineIsRead(" KEEP " + CommentPath(g.files[g.keep]), links, env);
    LinkLinesAreRead(g, 0, rest, bin, env);
  }

  lemma GroupLabelIsOneLine(g: DuplicateGroup, index: nat)
    requires ValidGroup(g) && OneLine(g.reclaimable)
    ensures OneLine(GroupLabel(g, index))
  {
  }

  /**
   Read back by the shell, the script runs exactly the program's link command for every file that is not kept, with
   the paths and the hash as they are, whatever characters they contain, and then the closing `echo`.
   */
  lemma {:induction false} ScriptIsRead(groups: seq<DuplicateGroup>, index: nat, summary: string, bin: string,
                                        env: map<string, string>)
    requires index <= |groups| && (forall g :: g in groups ==> ValidGroup(g) && OneLine(g.reclaimable))
    requires BIN in env && env[BIN] == bin
    ensures Unquoted(Body(groups, index, summary), None, [], env) == Some(AllCommands(groups, index, summary, bin))
    decreases |groups| - index
  {
    assert index < |groups| ==> groups[index] in groups;
    if index == |groups| {
      var quoted := ShellQuote(summary) + "\n";
      assert ("\n" + ("echo" + (" " + quoted)))[1..] == "echo" + (" " + quoted);
      FirstWordIsRead("echo", quoted, [], env);
      assert [] + ["echo"] == ["echo"];
      ShellQuoteIsRead(summary, "\n", ["echo"], env);
      assert ["echo"] + [summary] == ["echo", summary];
      assert "\n"[1..] == "" && Unquoted("", None, [], env) == Some([]);
      assert [["echo", summary]] + [] == [["echo", summary]];
      assert Unquoted("\n", Some(summary), ["echo"], env) == Some([["echo", summary]]);
    } else {
      ScriptIsRead(groups, index + 1, summary, bin, env);
      assert ValidGroup(groups[index]);
      GroupLinesAreRead(groups[index], index, Body(groups, index + 1, summary), bin, env);
    }
  }

  // ---- Writing it step by step -----------------------------------------------------------------------------------

  function Summary(commands: nat): string {
    "Fleetty dedupe plan complete: " + Decimal(commands) + " paths replaced."
  }

  /** The number of files that are not kept. */
  function Replacements(groups: seq<DuplicateGroup>): nat
    requires forall g :: g in groups ==> ValidGroup(g)
  {
    if groups == [] then 0
    else assert ValidGroup(groups[0]); |groups[0].files| - 1 + Replacements(groups[1..])
  }

  lemma {:induction false} ReplacementsGrow(groups: seq<DuplicateGroup>, g: DuplicateGroup)
    requires (forall h :: h in groups ==> ValidGroup(h)) && ValidGroup(g)
    ensures Replacements(groups + [g]) == Replacements(groups) + |g.files| - 1
    decreases |groups|
  {
    if groups == [] {
      assert [] + [g] == [g] && [g][1..] == [];
    } else {
      assert (groups + [g])[1..] == groups[1..] + [g];
      ReplacementsGrow(groups[1..], g);
    }
  }

  lemma Append(a: string, b: string, rest: string)
    ensures a + (b + rest) == a + b + rest
  {
  }

  lemma ArgumentsThen(keep: string, duplicate: string, hash: string, rest: string)
    ensures LinkArguments(keep, duplicate, hash, rest) == LinkArguments(keep, duplicate, hash, "") + rest
  {
    var x := "\n" + "";
    assert "\n" + rest == x + rest;
    Append(ShellQuote(hash), x, rest);
    x := ShellQuote(hash) + x;
    Append(" ", x, rest);
    x := " " + x;
    Append("--sha256", x, rest);
    x := "--sha256" + x;
    Append(" ", x, rest);
    x := " " + x;
    Append(ShellQuote(duplicate), x, rest);
    x := ShellQuote(duplicate) + x;
    Append(" ", x, rest);
    x := " " + x;
    Append("--replace", x, rest);
    x := "--replace" + x;
    Append(" ", x, rest);
    x := " " + x;
    Append(ShellQuote(keep), x, rest);
    x := ShellQuote(keep) + x;
    Append(" ", x, rest);
    x := " " + x;
    Append("--keep", x, rest);
    x := "--keep" + x;
    Append(" ", x, rest);
    x := " " + x;
    Append("dedupe-link", x, rest);
    x := "dedupe-link" + x;
    Append(" ", x, rest);
  }

  lemma CommandThen(keep: string, duplicate: string, hash: string, rest: string)
    ensures LinkCommand(keep, duplicate, hash, rest) == LinkCommand(keep, duplicate, hash, "") + rest
  {
    ArgumentsThen(keep, duplicate, hash, rest);
    var x := LinkArguments(keep, duplicate, hash, "");
    Append("\"", x, rest);
    Append(BIN, "\"" + x, rest);
    Append("\"$", BIN + ("\"" + x), rest);
  }

  lemma CommentThen(text: string, rest: string)
    ensures CommentLine(text, rest) == CommentLine(text, "") + rest
  {
    assert "\n" + "" == "\n";
    Append(text, "\n", rest);
    Append("#", text + "\n", rest);
  }

  lemma FileThen(keep: string, file: string, hash: string, rest: string)
    ensures FileLines(keep, file, hash, rest)
         == CommentLine(" LINK " + CommentPath(file), "") + LinkCommand(keep, file, hash, "") + rest
  {
    CommandThen(keep, file, hash, rest);
    CommentThen(" LINK " + CommentPath(file), LinkCommand(keep, file, hash, rest));
    Append(CommentLine(" LINK " + CommentPath(file), ""), LinkCommand(keep, file, hash, ""), rest);
  }

  /** Writes the lines of one group; `rest` stands for everything written later. */
  method WriteGroup(writer: string, g: DuplicateGroup, index: nat, commands: nat, ghost rest: string)
    returns (written: string, count: nat)
    requires ValidGroup(g)
    ensures written + rest == writer + GroupLines(g, index, rest)
    ensures count == commands + |g.files| - 1
  {
    hide CommentLine, LinkCommand;
    written, count := writer + "\n", commands;
    written := written + CommentLine(GroupLabel(g, index), "");
    written := written + CommentLine(" KEEP " + CommentPath(g.files[g.keep]), "");
    HeadThen(writer, GroupLabel(g, index), " KEEP " + CommentPath(g.files[g.keep]), LinkLines(g, 0, rest));
    var file := 0;
    while file < |g.files|
      invariant file <= |g.files|
      invariant written + LinkLines(g, file, rest) == writer + GroupLines(g, index, rest)
      invariant count == commands + file - (if file > g.keep then 1 else 0)
    {
      if file != g.keep {
        FileThen(g.files[g.keep], g.files[file], g.hash, LinkLines(g, file + 1, rest));
        ThreeParts(written, CommentLine(" LINK " + CommentPath(g.files[file]), ""),
                   LinkCommand(g.files[g.keep], g.files[file], g.hash, ""), LinkLines(g, file + 1, rest));
        written := written + CommentLine(" LINK " + CommentPath(g.files[file]), "");
        written := written + LinkCommand(g.files[g.keep], g.files[file], g.hash, "");
        count := count + 1;
      }
      file := file + 1;
    }
  }

  lemma ThreeParts(a: string, b: string, c: string, rest: string)
    ensures a + (b + c + rest) == a + b + c + rest
  {
  }

  lemma HeadThen(writer: string, title: string, kept: string, rest: string)
    ensures writer + "\n" + CommentLine(title, "") + CommentLine(kept, "") + rest
         == writer + ("\n" + CommentLine(title, CommentLine(kept, rest)))
  {
    CommentThen(kept, rest);
    CommentThen(title, CommentLine(kept, rest));
    ThreeParts(writer + "\n", CommentLine(title, ""), CommentLine(kept, ""), rest);
    Append(CommentLine(title, ""), CommentLine(kept, ""), rest);
    Append(writer, "\n", CommentLine(title, CommentLine(kept, rest)));
  }

  ghost predicate AllValid(groups: seq<DuplicateGroup>) {
    forall g :: g in groups ==> ValidGroup(g)
  }

  /** If every group is valid, what is written is the script up to group `index`. */
  ghost predicate WrittenSoFar(groups: seq<DuplicateGroup>, index: nat, writer: string, summary: string)
    requires index <= |groups|
  {
    AllValid(groups) ==> writer + Body(groups, index, summary) == Body(groups, 0, summary)
  }

  method WriteNext(groups: seq<DuplicateGroup>, index: nat, writer: string, commands: nat, ghost summary: string)
    returns (written: string, count: nat)
    requires index < |groups| && ValidGroup(groups[index]) && AllValid(groups[..index])
    requires WrittenSoFar(groups, index, writer, summary) && commands == Replacements(groups[..index])
    ensures WrittenSoFar(groups, index + 1, written, summary)
    ensures AllValid(groups[..index + 1]) && count == Replacements(groups[..index + 1])
  {
    assert groups[..index + 1] == groups[..index] + [groups[index]];
    ReplacementsGrow(groups[..index], groups[index]);
    ghost var rest := if AllValid(groups) then Body(groups, index + 1, summary) else "";
    written, count := WriteGroup(writer, groups[index], index, commands, rest);
  }

  /** The script after its header, or the number of the first group that cannot be written. */
  method WriteScript(groups: seq<DuplicateGroup>) returns (r: Result<string, nat>)
    ensures r.Ok? ==> groups != [] && AllValid(groups) && r.value == Body(groups, 0, Summary(Replacements(groups)))
    ensures r.Err? ==> groups == [] || (r.error < |groups| && !ValidGroup(groups[r.error]))
  {
    if groups == [] {
      return Err(0);
    }
    var writer, commands, index := "", 0, 0;
    ghost var summary := Summary(if AllValid(groups) then Replacements(groups) else 0);
    StartsEmpty(groups, summary);
    while index < |groups|
      invariant index <= |groups| && AllValid(groups[..index])
      invariant commands == Replacements(groups[..index])
      invariant WrittenSoFar(groups, index, writer, summary)
    {
      if !ValidGroup(groups[index]) {
        return Err(index);
      }
      writer, commands := WriteNext(groups, index, writer, commands, summary);
      index := index + 1;
    }
    assert groups[..index] == groups;
    r := Ok(writer + ("\n" + ("echo" + (" " + (ShellQuote(Summary(commands)) + "\n")))));
  }

  lemma StartsEmpty(groups: seq<DuplicateGroup>, summary: string)
    ensures WrittenSoFar(groups, 0, "", summary)
  {
    if AllValid(groups) {
      assert "" + Body(groups, 0, summary) == Body(groups, 0, summary);
    }
  }
}
