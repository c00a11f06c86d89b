/**
  The loops of the configuration parser, printer and updater, each proved against its
  function in ConfigSpec. Every loop terminates on every input.
 */
module ConfigParser {
  import opened Options
  import opened ConfigSpec
  import opened Lists

  method CopyWithoutComments(t: string, begin: nat, end: nat) returns (result: string)
    requires begin <= end <= |t|
    ensures result == ToString(t, begin, end)
  {
    hide FindIf;
    result := "";
    var pos := begin;
    NilLeft(ToString(t, begin, end));
    while pos != end
      invariant begin <= pos <= end
      invariant ToString(t, begin, end) == result + ToString(t, pos, end)
      decreases end - pos
    {
      var comment := FindIf(t, pos, end, IsHash);
      var endl := FindIf(t, comment, end, Endline);
      Assoc(result, t[pos..comment], ToString(t, endl, end));
      result := result + t[pos..comment];
      pos := endl;
    }
    NilLeft(result);
  }

  method SkipList(t: string, begin: nat) returns (skipper: nat)
    requires begin <= |t|
    ensures skipper == ListEnd(t, begin, 1).0
  {
    skipper := begin;
    var stack: nat := 1;
    while skipper != |t| && stack != 0
      invariant begin <= skipper <= |t|
      invariant ListEnd(t, begin, 1) == ListEnd(t, skipper, stack)
      decreases |t| - skipper
    {
      if t[skipper] == '[' {
        stack := stack + 1;
      }
      if t[skipper] == ']' {
        stack := stack - 1;
      }
      skipper := skipper + 1;
    }
  }

  /** The first half of `parse_option`: locate name and value on the line. */
  method LocateEntry(t: string, start: nat) returns (r: Split)
    requires start <= |t|
    ensures r == SplitLine(t, start)
  {
    hide FindIf, FindIfNot, TrimEnd;
    var begin := FindIfNot(t, start, |t|, Whitespace);
    var endl := FindIf(t, begin, |t|, Endline);
    var endc := FindIf(t, begin, endl, IsHash);
    endc := TrimEnd(t, begin, endc, Whitespace);
    var eq := FindIf(t, begin, endc, IsEquals);
    if eq == endc || eq == begin {
      return NoEntry(endl);
    }
    var endName := TrimEnd(t, begin, eq, SpaceTab);
    var beginVal := FindIfNot(t, eq + 1, endc, SpaceTab);
    if beginVal == endl {
      return NoEntry(endl);
    }
    return Split(begin, endl, endName, beginVal);
  }

  /** The second half of `parse_option`: lists may reach beyond the line. */
  method ReadOption(t: string, start: nat) returns (next: nat, entry: Option<Entry>)
    requires start <= |t|
    ensures next == ParseOption(t, start).0 && entry == ParseOption(t, start).1
  {
    hide *;
    var split := LocateEntry(t, start);
    if split.NoEntry? {
      NoOption(t, start);
      return split.endl, None;
    }
    var endl := split.endl;
    if t[split.beginVal] == '[' {
      endl := SkipList(t, split.beginVal + 1);
      ListOption(t, start);
      if endl == |t| && |t| == split.beginVal + 1 {
        return endl, None;
      }
    } else {
      LineOption(t, start);
    }
    var name := CopyWithoutComments(t, split.begin, split.endName);
    var value := CopyWithoutComments(t, split.beginVal, endl);
    return endl, Some((name, value));
  }

  method ReadConfig(t: string) returns (vars: map<string, string>)
    ensures vars == ParseConfig(t)
  {
    hide ParseOption, SplitLine;
    vars := map[];
    var pos := 0;
    while pos < |t|
      invariant ParseConfig(t) == ParseFrom(t, pos) + vars
      decreases |t| - pos
    {
      var endl, entry := ReadOption(t, pos);
      ghost var rest := ParseFrom(t, NextLine(t, endl));
      if entry.Some? {
        FirstWins(rest, vars, entry.value.0, entry.value.1);
      }
      pos := endl;
      if pos != |t| {
        pos := pos + (if t[pos] == '\r' then 2 else 1);
      }
      if entry.Some? && entry.value.0 !in vars {
        vars := vars[entry.value.0 := entry.value.1];
      }
    }
  }

  lemma FirstWins(rest: map<string, string>, vars: map<string, string>, k: string, v: string)
    ensures rest[k := v] + vars == rest + (if k in vars then vars else vars[k := v])
  {
  }

  lemma PrintedSoFar(stream: string, key: string, value: string, rest: string)
    ensures stream + (Line(key, value) + rest) == stream + key + " = " + value + "\n" + rest
  {
  }

  method PrintConfig(entries: seq<Entry>) returns (stream: string)
    ensures stream == Print(entries)
  {
    stream := "";
    var i := 0;
    while i < |entries|
      invariant i <= |entries|
      invariant Print(entries) == stream + Print(entries[i..])
    {
      var (key, value) := entries[i];
      assert entries[i..][1..] == entries[i + 1..];
      PrintedSoFar(stream, key, value, Print(entries[i + 1..]));
      stream := stream + key + " = " + value + "\n";
      i := i + 1;
    }
  }

  /** The configuration file; writing it may fail and then leaves it as it was. */
  class ConfigFile {
    var content: string

    constructor (content: string)
      ensures this.content == content
    {
      this.content := content;
    }

    /** `persist_config_option_if_missing`. */
    method PersistIfMissing(name: string, value: string, writeSucceeds: bool) returns (persisted: bool)
      modifies this
      ensures persisted == (name !in ParseConfig(old(content)) && writeSucceeds)
      ensures content == if persisted then Appended(old(content), name, value) else old(content)
    {
      hide ParseConfig;
      var fileContent := content;
      var vars := ReadConfig(fileContent);
      if name in vars {
        return false;
      }
      if fileContent != "" && fileContent[|fileContent| - 1] != '\n' {
        fileContent := fileContent + "\n";
      }
      fileContent := fileContent + (name + " = " + value + "\n");
      if !writeSucceeds {
        return false;
      }
      content := fileContent;
      return true;
    }
  }
}
