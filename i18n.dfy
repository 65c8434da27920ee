/**
 * Translation lookup: a dotted key is split on '.' and its segments are
 * followed through a tree of nested dictionaries loaded from the
 * language's JSON file. A key that does not lead to a string gives the
 * placeholder "[key]".
 */
module Localization {
  import opened Wrappers
  import Forms = Plural

  /** A JSON value of the translation file: a string, an object, or anything else. */
  datatype Node = Str(text: string) | Dict(entries: map<string, Node>) | Other

  /** Python's `s.split(sep)`: every separator cuts, empty segments are kept, and "" gives [""]. */
  function Split(s: string, sep: char): (parts: seq<string>)
    ensures |parts| >= 1
    ensures forall k :: 0 <= k < |parts| ==> sep !in parts[k]
  {
    if |s| == 0 then [""]
    else
      var rest := Split(s[1..], sep);
      if s[0] == sep then [""] + rest else [[s[0]] + rest[0]] + rest[1..]
  }

  /** `sep.join(parts)`, the inverse of `Split`. */
  function Join(parts: seq<string>, sep: char): string
    requires |parts| >= 1
  {
    if |parts| == 1 then parts[0] else parts[0] + [sep] + Join(parts[1..], sep)
  }

  lemma {:induction false} JoinSplit(s: string, sep: char)
    ensures Join(Split(s, sep), sep) == s
  {
    if |s| > 0 {
      JoinSplit(s[1..], sep);
      var rest := Split(s[1..], sep);
      if s[0] == sep {
        assert ([""] + rest)[1..] == rest;
      } else {
        var parts := [[s[0]] + rest[0]] + rest[1..];
        if |rest| > 1 {
          assert parts[1..] == rest[1..];
          assert Join(rest, sep) == rest[0] + [sep] + Join(rest[1..], sep);
        }
        assert s == [s[0]] + s[1..];
      }
    }
  }

  lemma {:induction false} SplitJoin(parts: seq<string>, sep: char)
    requires |parts| >= 1
    requires forall k :: 0 <= k < |parts| ==> sep !in parts[k]
    ensures Split(Join(parts, sep), sep) == parts
  {
    if |parts| == 1 {
      SplitNoSep(parts[0], sep);
    } else {
      SplitJoin(parts[1..], sep);
      SplitConcat(parts[0], sep, Join(parts[1..], sep));
      SplitNoSep(parts[0], sep);
      assert parts == [parts[0]] + parts[1..];
    }
  }

  lemma {:induction false} SplitNoSep(s: string, sep: char)
    requires sep !in s
    ensures Split(s, sep) == [s]
  {
    if |s| > 0 {
      SplitNoSep(s[1..], sep);
      assert s == [s[0]] + s[1..];
    }
  }

  /** Splitting `a + sep + b` splits `a` and `b` separately. */
  lemma {:induction false} SplitConcat(a: string, sep: char, b: string)
    ensures Split(a + [sep] + b, sep) == Split(a, sep) + Split(b, sep)
  {
    var s := a + [sep] + b;
    if |a| == 0 {
      assert s == [sep] + b;
      assert s[1..] == b;
    } else {
      assert s[1..] == a[1..] + [sep] + b;
      SplitConcat(a[1..], sep, b);
    }
  }

  /**
   * The node reached by following `parts` from `root`, or nothing when
   * some segment meets a node that is not a dictionary or lacks the
   * segment.
   */
  function Walk(root: Node, parts: seq<string>): Option<Node>
  {
    if |parts| == 0 then Some(root)
    else
      match Walk(root, parts[..|parts| - 1])
      case Some(Dict(m)) => if parts[|parts| - 1] in m then Some(m[parts[|parts| - 1]]) else None
      case _ => None
  }

  function Placeholder(key: string): string
  {
    "[" + key + "]"
  }

  /**
   * The string at the end of `parts`, or the placeholder for `key`; any
   * other result was found at the end of a chain of dictionaries.
   */
  function TranslatePath(translations: map<string, Node>, parts: seq<string>, key: string): (text: string)
    ensures text != Placeholder(key) ==>
      exists nodes :: (Chain(Dict(translations), parts, nodes) && nodes[|nodes| - 1] == Str(text))
  {
    match Walk(Dict(translations), parts)
    case Some(Str(found)) => WalkChain(Dict(translations), parts); found
    case _ => Placeholder(key)
  }

  /**
   * What `t(key)` returns: a result other than "[key]" is the string at
   * the end of a chain of dictionaries along the key's segments.
   */
  function Translate(translations: map<string, Node>, key: string): (text: string)
    ensures text != "[" + key + "]" ==>
      exists nodes :: (Chain(Dict(translations), Split(key, '.'), nodes) && nodes[|nodes| - 1] == Str(text))
  {
    TranslatePath(translations, Split(key, '.'), key)
  }

  /**
   * `nodes` is a chain of dictionaries along `parts`: each node is a
   * dictionary holding the next segment, whose value is the next node.
   */
  ghost predicate Chain(root: Node, parts: seq<string>, nodes: seq<Node>)
  {
    && |nodes| == |parts| + 1
    && nodes[0] == root
    && forall i :: 0 <= i < |parts| ==>
         nodes[i].Dict? && parts[i] in nodes[i].entries && nodes[i + 1] == nodes[i].entries[parts[i]]
  }

  lemma {:induction false} ChainWalk(root: Node, parts: seq<string>, nodes: seq<Node>)
    requires Chain(root, parts, nodes)
    ensures Walk(root, parts) == Some(nodes[|parts|])
  {
    if |parts| > 0 {
      var n := |parts| - 1;
      ChainWalk(root, parts[..n], nodes[..n + 1]);
    }
  }

  lemma {:induction false} WalkChain(root: Node, parts: seq<string>)
    requires Walk(root, parts).Some?
    ensures exists nodes :: Chain(root, parts, nodes) && nodes[|parts|] == Walk(root, parts).value
  {
    if |parts| == 0 {
      assert Chain(root, parts, [root]);
    } else {
      var n := |parts| - 1;
      WalkChain(root, parts[..n]);
      var prefix :| Chain(root, parts[..n], prefix) && prefix[n] == Walk(root, parts[..n]).value;
      var nodes := prefix + [Walk(root, parts).value];
      assert Chain(root, parts, nodes);
    }
  }

  lemma {:induction false} WalkStaysBroken(root: Node, parts: seq<string>, i: nat)
    requires i <= |parts|
    requires Walk(root, parts[..i]) == None
    ensures Walk(root, parts) == None
    decreases |parts| - i
  {
    if i < |parts| {
      assert parts[..i + 1][..i] == parts[..i];
      WalkStaysBroken(root, parts, i + 1);
    } else {
      assert parts[..i] == parts;
    }
  }

  /** A key whose segments lead through dictionaries to a string translates to that string. */
  lemma TranslateFound(translations: map<string, Node>, key: string, nodes: seq<Node>, text: string)
    requires Chain(Dict(translations), Split(key, '.'), nodes)
    requires nodes[|nodes| - 1] == Str(text)
    ensures Translate(translations, key) == text
  {
    ChainWalk(Dict(translations), Split(key, '.'), nodes);
  }

  /** A key whose path ends at a sub-dictionary or any other non-string gives the placeholder. */
  lemma TranslateNotString(translations: map<string, Node>, key: string, nodes: seq<Node>)
    requires Chain(Dict(translations), Split(key, '.'), nodes)
    requires !nodes[|nodes| - 1].Str?
    ensures Translate(translations, key) == "[" + key + "]"
  {
    ChainWalk(Dict(translations), Split(key, '.'), nodes);
  }

  /**
   * A key with a segment that meets a non-dictionary, or a dictionary
   * without that segment, gives the placeholder.
   */
  lemma TranslateMissing(translations: map<string, Node>, key: string, i: nat, nodes: seq<Node>)
    requires i < |Split(key, '.')|
    requires Chain(Dict(translations), Split(key, '.')[..i], nodes)
    requires !nodes[i].Dict? || Split(key, '.')[i] !in nodes[i].entries
    ensures Translate(translations, key) == "[" + key + "]"
  {
    var parts := Split(key, '.');
    ChainWalk(Dict(translations), parts[..i], nodes);
    assert parts[..i + 1][..i] == parts[..i];
    WalkStaysBroken(Dict(translations), parts, i + 1);
  }

  /** The key `plural` builds is the given key's segments followed by the plural form. */
  lemma PluralKeySegments(key: string, form: string)
    requires '.' !in form
    ensures Split(key + "." + form, '.') == Split(key, '.') + [form]
  {
    SplitConcat(key, '.', form);
    SplitNoSep(form, '.');
  }

  /** The translator of one language; its language and loaded tree never change. */
  class I18n {
    const language: string
    const translations: map<string, Node>

    /** `translations` stands for the JSON file of `language`, loaded by the caller. */
    constructor (language: string, translations: map<string, Node>)
      ensures CurrentLanguage() == language
      ensures this.translations == translations
    {
      this.language := language;
      this.translations := translations;
    }

    /** `current_language`: the code the translator was created with. */
    function CurrentLanguage(): (code: string)
      ensures code == language
    {
      language
    }

    /** `t`: walks the key's segments one at a time, stopping at the first that cannot be followed. */
    method T(key: string) returns (text: string)
      ensures text == Translate(translations, key)
    {
      var parts := Split(key, '.');
      var node := Dict(translations);
      var i := 0;
      while i < |parts|
        invariant 0 <= i <= |parts|
        invariant Walk(Dict(translations), parts[..i]) == Some(node)
      {
        if !node.Dict? || parts[i] !in node.entries {
          assert parts[..i + 1][..i] == parts[..i];
          WalkStaysBroken(Dict(translations), parts, i + 1);
          return Placeholder(key);
        }
        node := node.entries[parts[i]];
        assert parts[..i + 1][..i] == parts[..i];
        i := i + 1;
      }
      assert parts[..i] == parts;
      if !node.Str? {
        return Placeholder(key);
      }
      return node.text;
    }

    /**
     * `plural` without the final `str.format`: the template found under
     * the key's segments followed by the language's plural form of `n`.
     */
    method Plural(key: string, n: int) returns (template: string)
      ensures var form := Forms.GetPluralForm(language, n);
        template == TranslatePath(translations, Split(key, '.') + [form], key + "." + form)
    {
      var form := Forms.GetPluralForm(language, n);
      template := T(key + "." + form);
      Forms.FormHasNoDot(language, n);
      PluralKeySegments(key, form);
    }
  }
}
