/**
 * The string and collection helpers of lib/src/utils/util.js that the
 * command-tree core relies on.
 */
module Util {
  import opened JsValue

  // ---------------------------------------------------------------------
  // determineSuccess and the message reportResult logs
  // ---------------------------------------------------------------------

  /** `result.code` for a result that is an object; nothing otherwise. */
  function CodeOf(result: Value): Value
  {
    if result.Obj? then Get(result.fields, "code") else Undefined
  }

  /** `determineSuccess`: a task failed when it returned `false`, or an
      object carrying a truthy `code` (a non-zero shell exit status). */
  predicate DetermineSuccess(result: Value)
    ensures !result.Obj? ==> (DetermineSuccess(result) <==> result != Bool(false))
    ensures result.Obj? ==> (DetermineSuccess(result) <==> !Truthy(Get(result.fields, "code")))
  {
    !(result == Bool(false) || (result.Obj? && Truthy(CodeOf(result))))
  }

  lemma {:induction false} SuccessOfShellResults(code: int)
    ensures DetermineSuccess(Obj(map["code" := Num(code)])) <==> code == 0
    ensures DetermineSuccess(Null) && DetermineSuccess(Undefined) && DetermineSuccess(Obj(map[]))
    ensures !DetermineSuccess(Bool(false)) && DetermineSuccess(Bool(true))
  {
    assert Get(map["code" := Num(code)], "code") == Num(code);
  }

  /** The message `reportResult` logs for a task (its elapsed-time suffix
      and colouring left out). */
  function ReportMessage(task: string, result: Value): (m: string)
    ensures DetermineSuccess(result) ==> m == task + " completed successfully"
    ensures !DetermineSuccess(result) && Truthy(CodeOf(result)) ==>
      m == task + " failed (exit code " + ToStr(CodeOf(result)) + ")"
    ensures !DetermineSuccess(result) && !Truthy(CodeOf(result)) ==> m == task + " failed"
  {
    if DetermineSuccess(result) then task + " completed successfully"
    else
      var note := if Truthy(result) && Truthy(CodeOf(result))
        then " (exit code " + ToStr(CodeOf(result)) + ")" else "";
      task + " failed" + note
  }

  /** A failure message carries an exit code exactly when the result holds a
      truthy `code`, and a failure is either that or the value `false`. */
  lemma {:induction false} ExitCodeReported(task: string, result: Value)
    requires !DetermineSuccess(result)
    ensures ReportMessage(task, result) != task + " failed" <==> (result.Obj? && Truthy(Get(result.fields, "code")))
    ensures result == Bool(false) || (result.Obj? && Truthy(Get(result.fields, "code")))
  {
    if Truthy(CodeOf(result)) {
      var m := ReportMessage(task, result);
      assert |m| > |task + " failed"|;
    }
  }

  // ---------------------------------------------------------------------
  // commafy
  // ---------------------------------------------------------------------

  /** `commafy(items)` without a colour: `items.join(', ')`. */
  function Commafy(items: seq<Value>): (s: string)
    ensures items == [] ==> s == ""
    ensures |items| == 1 ==> s == ElementString(items[0])
    ensures |items| >= 2 ==> ElementString(items[0]) + ", " <= s
  {
    Join(seq(|items|, i requires 0 <= i < |items| => ElementString(items[i])), ", ")
  }

  lemma {:induction false} CommafyConcat(a: seq<Value>, b: seq<Value>)
    requires a != [] && b != []
    ensures Commafy(a + b) == Commafy(a) + ", " + Commafy(b)
  {
    var sa := seq(|a|, i requires 0 <= i < |a| => ElementString(a[i]));
    var sb := seq(|b|, i requires 0 <= i < |b| => ElementString(b[i]));
    assert seq(|a + b|, i requires 0 <= i < |a + b| => ElementString((a + b)[i])) == sa + sb;
    JoinAppend(sa, sb, ", ");
  }

  lemma CommafySmall(x: Value)
    ensures Commafy([]) == ""
    ensures Commafy([x]) == ElementString(x)
    ensures Commafy([Str("a"), Str("b"), Str("c")]) == "a, b, c"
  {
    assert Commafy([x]) == Join([ElementString(x)], ", ");
    var abc := [Str("a"), Str("b"), Str("c")];
    var parts := seq(|abc|, i requires 0 <= i < |abc| => ElementString(abc[i]));
    assert parts[0] == "a" && parts[1] == "b" && parts[2] == "c";
    assert parts == ["a", "b", "c"];
    assert ["a", "b", "c"][1..] == ["b", "c"] && ["b", "c"][1..] == ["c"];
  }

  // ---------------------------------------------------------------------
  // String trimming and splitting (String.prototype.trim / split)
  // ---------------------------------------------------------------------

  /** The characters JavaScript's `trim` removes and `\s` matches. */
  predicate IsSpace(c: char)
  {
    c == ' ' || c == '\t' || c == '\n' || c == '\r' || c == '\U{000B}' || c == '\U{000C}'
    || c == '\U{00A0}' || c == '\U{1680}' || ('\U{2000}' <= c <= '\U{200A}')
    || c == '\U{2028}' || c == '\U{2029}' || c == '\U{202F}' || c == '\U{205F}'
    || c == '\U{3000}' || c == '\U{FEFF}'
  }

  predicate AllSpace(s: string)
  {
    forall i :: 0 <= i < |s| ==> IsSpace(s[i])
  }

  function TrimStart(s: string): (r: string)
    ensures |r| <= |s| && r == s[|s| - |r|..]
    ensures AllSpace(s[..|s| - |r|])
    ensures r != [] ==> !IsSpace(r[0])
  {
    if s != [] && IsSpace(s[0]) then
      var r := TrimStart(s[1..]);
      assert s[..|s| - |r|] == [s[0]] + s[1..][..|s| - 1 - |r|];
      assert s[|s| - |r|..] == s[1..][|s| - 1 - |r|..];
      r
    else s
  }

  function TrimEnd(s: string): (r: string)
    ensures |r| <= |s| && r == s[..|r|]
    ensures AllSpace(s[|r|..])
    ensures r != [] ==> !IsSpace(r[|r| - 1])
  {
    if s != [] && IsSpace(s[|s| - 1]) then
      var r := TrimEnd(s[..|s| - 1]);
      assert s[|r|..] == s[..|s| - 1][|r|..] + [s[|s| - 1]];
      assert s[..|r|] == s[..|s| - 1][..|r|];
      r
    else s
  }

  /** `s.trim()`: the text between the leading and the trailing whitespace. */
  function Trim(s: string): (r: string)
    ensures |r| <= |s|
    ensures r != [] ==> !IsSpace(r[0]) && !IsSpace(r[|r| - 1])
    ensures r == [] <==> AllSpace(s)
  {
    TrimEmpty(s);
    TrimEnd(TrimStart(s))
  }

  lemma TrimEmpty(s: string)
    ensures TrimEnd(TrimStart(s)) == [] <==> AllSpace(s)
  {
    var t := TrimStart(s);
    var i := |s| - |t|;
    if t == [] {
      assert s[..i] == s;
    } else {
      assert s[i] == t[0];
      assert t[0..] == t;
    }
  }

  /** `r` occurs in `s` at position `i`. */
  predicate SliceAt(r: string, s: string, i: nat)
  {
    i + |r| <= |s| && r == s[i..i + |r|]
  }

  /** `s.trim()` is the slice of `s` that starts where the leading
      whitespace ends. */
  lemma TrimIsSlice(s: string)
    ensures SliceAt(Trim(s), s, |s| - |TrimStart(s)|)
  {
    var t := TrimStart(s);
    var r := TrimEnd(t);
    assert Trim(s) == r;
    SliceOfSlice(s, t, r);
  }

  lemma SliceOfSlice(s: string, t: string, r: string)
    requires |t| <= |s| && t == s[|s| - |t|..]
    requires |r| <= |t| && r == t[..|r|]
    ensures SliceAt(r, s, |s| - |t|)
  {
    var i := |s| - |t|;
    assert s[i..i + |r|] == t[..|r|];
  }

  lemma {:induction false} TrimIdempotent(s: string)
    ensures Trim(Trim(s)) == Trim(s)
  {
    var t := Trim(s);
    if t != [] {
      assert TrimStart(t) == t;
      assert TrimEnd(t) == t;
    }
  }

  /** The number of occurrences of `c` in `s`. */
  function Count(s: string, c: char): nat
  {
    if s == [] then 0 else (if s[0] == c then 1 else 0) + Count(s[1..], c)
  }

  /** `s.split(c)` for a one-character separator. */
  function Split(s: string, c: char): (r: seq<string>)
    ensures |r| == Count(s, c) + 1
    ensures forall i :: 0 <= i < |r| ==> c !in r[i]
  {
    if s == [] then [""]
    else
      var rest := Split(s[1..], c);
      if s[0] == c then [""] + rest else [[s[0]] + rest[0]] + rest[1..]
  }

  /** Splitting and re-joining with the same separator gives the text back. */
  lemma {:induction false} JoinSplit(s: string, c: char)
    ensures Join(Split(s, c), [c]) == s
  {
    if s != [] {
      var rest := Split(s[1..], c);
      JoinSplit(s[1..], c);
      if s[0] == c {
        assert Split(s, c) == [""] + rest;
        JoinAppend([""], rest, [c]);
      } else {
        var first := [s[0]] + rest[0];
        if |rest| == 1 {
          assert Split(s, c) == [first];
        } else {
          assert Split(s, c) == [first] + rest[1..];
          JoinAppend([first], rest[1..], [c]);
          JoinAppend([rest[0]], rest[1..], [c]);
          assert rest == [rest[0]] + rest[1..];
        }
      }
    }
  }

  /** `arrayifyOutput(output)`: null for blank output, otherwise one trimmed
      line per newline-separated line of the trimmed output. */
  function ArrayifyOutput(output: string): (r: Option<seq<string>>)
    ensures r.None? <==> AllSpace(output)
    ensures r.Some? ==> |r.value| == Count(Trim(output), '\n') + 1
    ensures r.Some? ==> forall i :: 0 <= i < |r.value| ==>
      r.value[i] == Trim(Split(Trim(output), '\n')[i]) && '\n' !in r.value[i]
  {
    var t := Trim(output);
    if AllSpace(t) then None
    else
      var lines := Split(t, '\n');
      Some(seq(|lines|, i requires 0 <= i < |lines| => Trim(lines[i])))
  }

  /** The lines `arrayifyOutput` returns, before their own trimming, join
      back into the trimmed output. */
  lemma ArrayifyLinesJoin(output: string)
    requires !AllSpace(output)
    ensures Join(Split(Trim(output), '\n'), "\n") == Trim(output)
  {
    JoinSplit(Trim(output), '\n');
  }

  // ---------------------------------------------------------------------
  // substituteEnv
  // ---------------------------------------------------------------------

  /** A character of the class `\w`. */
  predicate IsWordChar(c: char)
  {
    ('a' <= c <= 'z') || ('A' <= c <= 'Z') || ('0' <= c <= '9') || c == '_'
  }

  /** The length of the longest prefix of `s` made of word characters. */
  function WordPrefix(s: string): (n: nat)
    ensures n <= |s|
    ensures forall i :: 0 <= i < n ==> IsWordChar(s[i])
    ensures n < |s| ==> !IsWordChar(s[n])
  {
    if s != [] && IsWordChar(s[0]) then 1 + WordPrefix(s[1..]) else 0
  }

  /** `s.replace(/\$(\w+)/g, (_, name) => vars[name])`. */
  function ReplaceVars(s: string, vars: map<string, Value>): (r: string)
    ensures '$' !in s ==> r == s
    decreases |s|
  {
    if s == [] then ""
    else if s[0] == '$' && |s| > 1 && IsWordChar(s[1]) then
      var end := 1 + WordPrefix(s[1..]);
      ToStr(Get(vars, s[1..end])) + ReplaceVars(s[end..], vars)
    else [s[0]] + ReplaceVars(s[1..], vars)
  }

  /** The variables `substituteEnv` looks names up in: `_.merge({}, env, extraEnv)`. */
  function AllEnv(env: map<string, Value>, extraEnv: map<string, Value>): (r: map<string, Value>)
    ensures r.Keys == env.Keys + extraEnv.Keys
    ensures forall k :: k in env && k !in extraEnv ==> r[k] == env[k]
    ensures forall k :: k in extraEnv && IsLeaf(extraEnv[k]) ==> r[k] == extraEnv[k]
  {
    MergeMaps(MergeMaps(map[], env), extraEnv)
  }

  /** `substituteEnv(s, extraEnv)` with the process environment `env`. */
  function SubstituteEnv(s: string, env: map<string, Value>, extraEnv: map<string, Value>): (r: string)
    ensures '$' !in s ==> r == s
    ensures |s| > 1 && s[0] == '$' && (forall i :: 1 <= i < |s| ==> IsWordChar(s[i])) ==>
      r == ToStr(Get(AllEnv(env, extraEnv), s[1..]))
  {
    var vars := AllEnv(env, extraEnv);
    assert |s| > 1 && s[0] == '$' && (forall i :: 1 <= i < |s| ==> IsWordChar(s[i])) ==>
      ReplaceVars(s, vars) == ToStr(Get(vars, s[1..])) by {
      if |s| > 1 && s[0] == '$' && (forall i :: 1 <= i < |s| ==> IsWordChar(s[i])) {
        ReplaceVarsReference(s[1..], "", vars);
        assert "$" + s[1..] + "" == s;
      }
    }
    ReplaceVars(s, vars)
  }

  /** Text holding no reference: no `$` is followed by a word character,
      and the text does not end in `$` (which the next text could complete). */
  predicate NoReference(t: string)
  {
    (forall i :: 0 <= i < |t| - 1 ==> !ReferenceAt(t, i)) && (t == [] || t[|t| - 1] != '$')
  }

  /** Concatenation of strings is associative. */
  lemma AppendAssoc(a: string, b: string, c: string)
    ensures a + (b + c) == (a + b) + c
  {
  }

  /** A reference `$name` starts at position `i` of `t`. */
  predicate ReferenceAt(t: string, i: int)
    requires 0 <= i < |t| - 1
  {
    t[i] == '$' && IsWordChar(t[i + 1])
  }

  /** Text holding no reference passes through unchanged, in front of anything. */
  lemma {:induction false} ReplaceVarsLiteral(lit: string, rest: string, vars: map<string, Value>)
    requires NoReference(lit)
    ensures ReplaceVars(lit + rest, vars) == lit + ReplaceVars(rest, vars)
  {
    if lit != [] {
      var r := ReplaceVars(rest, vars);
      ReplaceVarsHead(lit, rest, vars);
      ReplaceVarsLiteral(lit[1..], rest, vars);
      AppendAssoc([lit[0]], lit[1..], r);
      assert [lit[0]] + lit[1..] == lit;
    } else {
      assert lit + rest == rest;
    }
  }

  /** The first character of text holding no reference is copied as it is,
      and the remaining text still holds no reference. */
  lemma ReplaceVarsHead(lit: string, rest: string, vars: map<string, Value>)
    requires lit != [] && NoReference(lit)
    ensures ReplaceVars(lit + rest, vars) == [lit[0]] + ReplaceVars(lit[1..] + rest, vars)
    ensures NoReference(lit[1..])
  {
    var s := lit + rest;
    assert s[0] == lit[0];
    assert s[1..] == lit[1..] + rest;
    if lit[0] == '$' {
      assert |lit| > 1 && !ReferenceAt(lit, 0);
      assert s[1] == lit[1];
    }
    var t := lit[1..];
    forall i | 0 <= i < |t| - 1
      ensures !ReferenceAt(t, i)
    {
      assert !ReferenceAt(lit, i + 1);
      assert t[i] == lit[i + 1] && t[i + 1] == lit[i + 2];
    }
  }

  /** A `$` not followed by a word character is kept as it is. */
  lemma ReplaceVarsStrayDollar(rest: string, vars: map<string, Value>)
    requires rest == [] || !IsWordChar(rest[0])
    ensures ReplaceVars("$" + rest, vars) == "$" + ReplaceVars(rest, vars)
  {
    assert ("$" + rest)[1..] == rest;
  }

  /** `$name` followed by a non-word character is replaced by the variable's text. */
  lemma ReplaceVarsReference(name: string, rest: string, vars: map<string, Value>)
    requires name != [] && forall i :: 0 <= i < |name| ==> IsWordChar(name[i])
    requires rest == [] || !IsWordChar(rest[0])
    ensures ReplaceVars("$" + name + rest, vars) == ToStr(Get(vars, name)) + ReplaceVars(rest, vars)
  {
    var s := "$" + name + rest;
    WordPrefixOf(name, rest);
    assert s[1..] == name + rest;
    assert s[1..1 + |name|] == name;
    assert s[1 + |name|..] == rest;
  }

  lemma {:induction false} WordPrefixOf(name: string, rest: string)
    requires forall i :: 0 <= i < |name| ==> IsWordChar(name[i])
    requires rest == [] || !IsWordChar(rest[0])
    ensures WordPrefix(name + rest) == |name|
  {
    if name != [] {
      assert (name + rest)[1..] == name[1..] + rest;
      WordPrefixOf(name[1..], rest);
    }
  }

  /** Text holding no reference, then a reference `$name` ended by a
      non-word character: the text is kept and the reference becomes the variable's text, taken
      from `extraEnv` first, then from the environment. */
  lemma SubstituteEnvReference(lit: string, name: string, rest: string, env: map<string, Value>, extraEnv: map<string, Value>)
    requires NoReference(lit)
    requires name != [] && forall i :: 0 <= i < |name| ==> IsWordChar(name[i])
    requires rest == [] || !IsWordChar(rest[0])
    ensures SubstituteEnv(lit + "$" + name + rest, env, extraEnv) == lit + ToStr(Get(AllEnv(env, extraEnv), name)) + SubstituteEnv(rest, env, extraEnv)
  {
    var vars := AllEnv(env, extraEnv);
    AppendAssoc(lit, "$", name);
    AppendAssoc(lit, "$" + name, rest);
    ReplaceVarsLiteral(lit, "$" + name + rest, vars);
    ReplaceVarsReference(name, rest, vars);
    AppendAssoc(lit, ToStr(Get(vars, name)), ReplaceVars(rest, vars));
  }

  /** A `$` that no word character follows, a trailing one included, is kept. */
  lemma SubstituteEnvStrayDollar(rest: string, env: map<string, Value>, extraEnv: map<string, Value>)
    requires rest == [] || !IsWordChar(rest[0])
    ensures SubstituteEnv("$" + rest, env, extraEnv) == "$" + SubstituteEnv(rest, env, extraEnv)
  {
    ReplaceVarsStrayDollar(rest, AllEnv(env, extraEnv));
  }

  /** `substituteEnv('5$ off for $USER')` keeps the stray `$` and replaces `$USER`. */
  lemma SubstituteEnvPriceExample(env: map<string, Value>)
    ensures SubstituteEnv("5$ off for $USER", env, map[]) == "5$ off for " + ToStr(Get(AllEnv(env, map[]), "USER"))
  {
    PriceTextPlain();
    SubstituteEnvReference("5$ off for ", "USER", "", env, map[]);
  }

  lemma PriceTextPlain()
    ensures NoReference("5$ off for ")
    ensures "5$ off for " + "$" + "USER" + "" == "5$ off for $USER"
    ensures forall i :: 0 <= i < |"USER"| ==> IsWordChar("USER"[i])
  {
  }

  // ---------------------------------------------------------------------
  // expandHome
  // ---------------------------------------------------------------------

  /** The characters `.` in a regular expression does not match. */
  predicate IsLineTerminator(c: char)
  {
    c == '\n' || c == '\r' || c == '\U{2028}' || c == '\U{2029}'
  }

  /** The first index at or after `from` that ends the line (`|s|` if none). */
  function LineEnd(s: string, from: nat): (e: nat)
    requires from <= |s|
    ensures from <= e <= |s|
    ensures forall i :: from <= i < e ==> !IsLineTerminator(s[i])
    ensures e < |s| ==> IsLineTerminator(s[e])
    decreases |s| - from
  {
    if from == |s| || IsLineTerminator(s[from]) then from else LineEnd(s, from + 1)
  }

  /** The last index below `upto`, and not below `from`, that holds `~`. */
  function LastTilde(s: string, from: nat, upto: nat): (k: Option<nat>)
    requires from <= upto <= |s|
    ensures k.None? <==> forall i :: from <= i < upto ==> s[i] != '~'
    ensures k.Some? ==> from <= k.value < upto && s[k.value] == '~'
    ensures k.Some? ==> forall i :: k.value < i < upto ==> s[i] != '~'
    decreases upto
  {
    if upto == from then None
    else if s[upto - 1] == '~' then Some(upto - 1)
    else LastTilde(s, from, upto - 1)
  }

  /** Where `s.match(/.*(~.*)/)` finds its group, scanning lines from `start`:
      the last `~` of the first line that has one, up to that line's end. */
  function TildeGroupFrom(s: string, start: nat): (r: Option<(nat, nat)>)
    requires start <= |s|
    ensures r.None? <==> forall i :: start <= i < |s| ==> s[i] != '~'
    ensures r.Some? ==> start <= r.value.0 < r.value.1 <= |s| && s[r.value.0] == '~'
    ensures r.Some? ==> forall i :: r.value.0 < i < r.value.1 ==> s[i] != '~' && !IsLineTerminator(s[i])
    ensures r.Some? ==> r.value.1 == |s| || IsLineTerminator(s[r.value.1])
    decreases |s| - start
  {
    var e := LineEnd(s, start);
    var k := LastTilde(s, start, e);
    if k.Some? then Some((k.value, e))
    else if e == |s| then None
    else TildeGroupFrom(s, e + 1)
  }

  /** `expandHome(path)`, with the `expand-home-dir` package as `expandDir`. */
  function ExpandHome(path: string, expandDir: string -> string): (r: string)
    ensures '~' !in path ==> r == path
  {
    if path == "" then path
    else match TildeGroupFrom(path, 0)
      case None => path
      case Some((k, e)) => expandDir(path[k..e])
  }

  /** On a one-line path, the text handed to the expander is the suffix that
      starts at the last `~` (the `.*` before the group is greedy). */
  lemma ExpandHomeLastTilde(path: string, expandDir: string -> string, k: nat)
    requires forall i :: 0 <= i < |path| ==> !IsLineTerminator(path[i])
    requires k < |path| && path[k] == '~' && forall i :: k < i < |path| ==> path[i] != '~'
    ensures ExpandHome(path, expandDir) == expandDir(path[k..])
  {
    var e := LineEnd(path, 0);
    assert e == |path|;
    var last := LastTilde(path, 0, e);
    assert last.Some? && last.value == k;
    assert TildeGroupFrom(path, 0) == Some((k, |path|));
    assert path[k..|path|] == path[k..];
  }

  // ---------------------------------------------------------------------
  // Property-name walkers
  // ---------------------------------------------------------------------

  /** `Object.getOwnPropertyNames(Object.prototype)`. */
  const ObjectPrototypeNames: seq<string> := [
    "constructor", "__defineGetter__", "__defineSetter__", "hasOwnProperty",
    "__lookupGetter__", "__lookupSetter__", "isPrototypeOf", "propertyIsEnumerable",
    "toString", "valueOf", "__proto__", "toLocaleString"]

  /** Every name of `Object.prototype` is at least seven characters long,
      so no shorter name can be one of them. */
  lemma ObjectPrototypeNameLengths()
    ensures forall x :: x in ObjectPrototypeNames ==> |x| >= 7
  {
  }

  /** All levels' names, in prototype-chain order, duplicates kept. */
  function Flatten(levels: seq<seq<string>>): seq<string>
  {
    if levels == [] then [] else Flatten(levels[..|levels| - 1]) + levels[|levels| - 1]
  }

  lemma {:induction false} FlattenContains(levels: seq<seq<string>>, x: string)
    ensures x in Flatten(levels) <==> exists i :: 0 <= i < |levels| && x in levels[i]
  {
    if levels != [] {
      var init := levels[..|levels| - 1];
      FlattenContains(init, x);
      if x in Flatten(levels) && x !in levels[|levels| - 1] {
        var i :| 0 <= i < |init| && x in init[i];
        assert levels[i] == init[i];
      }
      if exists i :: 0 <= i < |levels| && x in levels[i] {
        var i :| 0 <= i < |levels| && x in levels[i];
        if i < |levels| - 1 { assert init[i] == levels[i]; }
      }
    }
  }

  /** A name `getAllPublicPropertyNames` keeps: not underscore-prefixed and
      not a name of `Object.prototype`. */
  predicate IsPublicName(name: string)
  {
    !(|name| > 0 && name[0] == '_') && name !in ObjectPrototypeNames
  }

  function PublicOnly(names: seq<string>): (r: seq<string>)
    ensures forall x :: x in r <==> x in names && IsPublicName(x)
  {
    if names == [] then []
    else (if IsPublicName(names[0]) then [names[0]] else []) + PublicOnly(names[1..])
  }

  lemma {:induction false} PublicOnlyConcat(a: seq<string>, b: seq<string>)
    ensures PublicOnly(a + b) == PublicOnly(a) + PublicOnly(b)
  {
    if a != [] {
      var head := if IsPublicName(a[0]) then [a[0]] else [];
      assert (a + b)[0] == a[0];
      assert (a + b)[1..] == a[1..] + b;
      assert PublicOnly(a + b) == head + PublicOnly(a[1..] + b);
      PublicOnlyConcat(a[1..], b);
      assert head + (PublicOnly(a[1..]) + PublicOnly(b)) == (head + PublicOnly(a[1..])) + PublicOnly(b);
    } else {
      assert a + b == b;
    }
  }

  /** `_.uniq`: the first occurrence of each element, in order. */
  function Uniq<T(==,!new)>(s: seq<T>): (r: seq<T>)
    ensures NoDuplicates(r)
    ensures forall x :: x in r <==> x in s
  {
    if s == [] then []
    else
      var u := Uniq(s[..|s| - 1]);
      assert forall x :: x in s <==> x in s[..|s| - 1] || x == s[|s| - 1];
      if s[|s| - 1] in u then u else u + [s[|s| - 1]]
  }

  /** What `getAllPublicPropertyNames` returns for an object whose prototype
      chain has the own-name lists `chain`. */
  function PublicNames(chain: seq<seq<string>>): seq<string>
  {
    Uniq(PublicOnly(Flatten(chain)))
  }

  /** No private or `Object.prototype` name, no duplicate, and every public
      name of every level. */
  lemma PublicNamesSpec(chain: seq<seq<string>>)
    ensures NoDuplicates(PublicNames(chain))
    ensures forall x :: x in PublicNames(chain) ==> IsPublicName(x)
    ensures forall i, x :: 0 <= i < |chain| && x in chain[i] && IsPublicName(x) ==> x in PublicNames(chain)
    ensures forall x :: x in PublicNames(chain) ==> exists i :: 0 <= i < |chain| && x in chain[i]
  {
    forall x ensures x in Flatten(chain) <==> exists i :: 0 <= i < |chain| && x in chain[i] {
      FlattenContains(chain, x);
    }
  }

  /** `getAllPropertyNames(obj)`: `chain` lists the own property names of
      `obj` and of each object on its prototype chain (so it is not empty). */
  method AllPropertyNames(chain: seq<seq<string>>) returns (props: seq<string>)
    requires |chain| > 0
    ensures props == Flatten(chain)
  {
    props := [];
    var level := 0;
    while true
      invariant 0 <= level < |chain|
      invariant props == Flatten(chain[..level])
      decreases |chain| - level
    {
      assert chain[..level + 1][..level] == chain[..level];
      props := props + chain[level];
      if level + 1 == |chain| {
        assert chain[..level + 1] == chain;
        break;
      }
      level := level + 1;
    }
  }

  /** `getAllPublicPropertyNames(obj)`. Its `names === BASE_NAMES` test
      compares an array with an object and never holds, so it never stops early. */
  method AllPublicPropertyNames(chain: seq<seq<string>>) returns (names: seq<string>)
    requires |chain| > 0
    ensures names == PublicNames(chain)
  {
    var props: seq<string> := [];
    var level := 0;
    while true
      invariant 0 <= level < |chain|
      invariant props == PublicOnly(Flatten(chain[..level]))
      decreases |chain| - level
    {
      assert chain[..level + 1][..level] == chain[..level];
      PublicOnlyConcat(Flatten(chain[..level]), chain[level]);
      props := props + PublicOnly(chain[level]);
      if level + 1 == |chain| {
        assert chain[..level + 1] == chain;
        break;
      }
      level := level + 1;
    }
    names := Uniq(props);
  }

  /** The names of `names` that are not in `excluded`, in order, duplicates kept. */
  function Without(names: seq<string>, excluded: seq<string>): (r: seq<string>)
    ensures forall x :: x in r <==> x in names && x !in excluded
    ensures |r| <= |names|
  {
    if names == [] then []
    else (if names[0] in excluded then [] else [names[0]]) + Without(names[1..], excluded)
  }

  /** `getAllUniquePropertyNames(obj, other)`. The names of `other` are looked
      up with `in` on a plain object, which also sees `Object.prototype`. */
  method AllUniquePropertyNames(chain: seq<seq<string>>, otherChain: seq<seq<string>>) returns (names: seq<string>)
    requires |chain| > 0 && |otherChain| > 0
    ensures names == Without(Flatten(chain), Flatten(otherChain) + ObjectPrototypeNames)
  {
    var own := AllPropertyNames(chain);
    var other := AllPropertyNames(otherChain);
    names := Without(own, other + ObjectPrototypeNames);
  }

  /** A name survives `Without` exactly when some level of `obj`'s chain has
      it and neither `other`'s chain nor the base names (`Object.prototype`'s,
      in `AllUniquePropertyNames`) do. */
  lemma UniqueNamesSpec(chain: seq<seq<string>>, otherChain: seq<seq<string>>, x: string, base: seq<string>)
    ensures x in Without(Flatten(chain), Flatten(otherChain) + base) <==>
      (exists i :: 0 <= i < |chain| && x in chain[i])
      && !(exists j :: 0 <= j < |otherChain| && x in otherChain[j])
      && x !in base
  {
    var own := Flatten(chain);
    var other := Flatten(otherChain);
    var excluded := other + base;
    assert x in excluded <==> x in other || x in base;
    assert x in Without(own, excluded) <==> x in own && x !in excluded;
    FlattenContains(chain, x);
    FlattenContains(otherChain, x);
  }
}
