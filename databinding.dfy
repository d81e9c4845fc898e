/**
 * The string rules of DataBindingUtil: Java class and field names derived from
 * layout file names, import aliases and their resolution, the `default=` value
 * of a binding expression, and the view class behind a layout tag.
 */
module DataBinding {
  import opened Wrappers

  // ---------------------------------------------------------------------------
  // Java string primitives
  // ---------------------------------------------------------------------------

  /** String.indexOf(char): the first index of c, or -1. */
  function IndexOf(s: string, c: char): (i: int)
    ensures -1 <= i < |s|
    ensures i >= 0 ==> s[i] == c && forall k :: 0 <= k < i ==> s[k] != c
    ensures i == -1 <==> c !in s
  {
    if s == [] then -1
    else if s[0] == c then 0
    else
      var j := IndexOf(s[1..], c);
      if j < 0 then -1 else j + 1
  }

  /** String.lastIndexOf(char): the last index of c, or -1. */
  function LastIndexOf(s: string, c: char): (i: int)
    ensures -1 <= i < |s|
    ensures i >= 0 ==> s[i] == c && forall k :: i < k < |s| ==> s[k] != c
    ensures i == -1 <==> c !in s
  {
    if s == [] then -1
    else if s[|s| - 1] == c then |s| - 1
    else
      var j := LastIndexOf(s[..|s| - 1], c);
      assert s == s[..|s| - 1] + [s[|s| - 1]];
      j
  }

  /** String.startsWith. */
  predicate StartsWith(s: string, prefix: string) {
    |prefix| <= |s| && s[..|prefix|] == prefix
  }

  /** Whether `part` occurs in s at index k. */
  predicate OccursAt(s: string, part: string, k: nat) {
    k + |part| <= |s| && s[k..k + |part|] == part
  }

  /** String.contains. */
  predicate Contains(s: string, part: string) {
    exists k: nat | k <= |s| :: OccursAt(s, part, k)
  }

  /** Character.toUpperCase, for the ASCII letters (every other character is kept). */
  function ToUpper(c: char): char {
    if 'a' <= c <= 'z' then (c as int - 32) as char else c
  }

  predicate IsUpperCase(c: char) {
    'A' <= c <= 'Z'
  }

  /**
   * StringUtil.capitalize: the empty string is kept, a one-character string is
   * upper-cased, a string already starting with an upper-case letter is kept,
   * otherwise the first character is upper-cased.
   */
  function Capitalize(s: string): (r: string)
    ensures |r| == |s|
    ensures s != [] ==> r[0] == ToUpper(s[0]) && r[1..] == s[1..]
  {
    if s == [] then s
    else if |s| == 1 then [ToUpper(s[0])]
    else if IsUpperCase(s[0]) then s
    else [ToUpper(s[0])] + s[1..]
  }

  // ---------------------------------------------------------------------------
  // File name to Java class and field name
  // ---------------------------------------------------------------------------

  /** The separators of the pattern "[_-]". */
  predicate IsSeparator(c: char) {
    c == '_' || c == '-'
  }

  /** The file name up to its first '.', or the whole name when it has none. */
  function BeforeFirstDot(name: string): (r: string)
    ensures '.' !in r
    ensures StartsWith(name, r)
    ensures r == name || (|r| < |name| && name[|r|] == '.')
  {
    var i := IndexOf(name, '.');
    if i >= 0 then name[..i] else name
  }

  /** The separator characters of s, in order. */
  function SeparatorsOf(s: string): (r: string)
    ensures |r| <= |s|
    ensures forall k :: 0 <= k < |r| ==> IsSeparator(r[k])
  {
    if s == [] then []
    else (if IsSeparator(s[0]) then [s[0]] else []) + SeparatorsOf(s[1..])
  }

  /** The pieces joined back together with one separator between each two. */
  function Interleave(parts: seq<string>, seps: string): string
    requires |parts| == |seps| + 1
  {
    if seps == [] then parts[0] else parts[0] + [seps[0]] + Interleave(parts[1..], seps[1..])
  }

  /** Putting one more character in front of the first piece puts it in front of the joined text. */
  lemma InterleaveExtendFirst(c: char, parts: seq<string>, seps: string)
    requires |parts| == |seps| + 1
    ensures Interleave([[c] + parts[0]] + parts[1..], seps) == [c] + Interleave(parts, seps)
  {
    var longer := [[c] + parts[0]] + parts[1..];
    assert longer[0] == [c] + parts[0];
    assert longer[1..] == parts[1..];
    if seps != [] {
      var tail := Interleave(parts[1..], seps[1..]);
      calc {
        Interleave(longer, seps);
        ([c] + parts[0]) + [seps[0]] + tail;
        { ConcatAssociative([c], parts[0], [seps[0]]); }
        [c] + (parts[0] + [seps[0]]) + tail;
        { ConcatAssociative([c], parts[0] + [seps[0]], tail); }
        [c] + (parts[0] + [seps[0]] + tail);
        [c] + Interleave(parts, seps);
      }
    }
  }

  /** An empty first piece puts the first separator in front of the joined text. */
  lemma InterleaveSeparatorFirst(c: char, parts: seq<string>, seps: string)
    requires |parts| == |seps| + 1
    ensures Interleave([[]] + parts, [c] + seps) == [c] + Interleave(parts, seps)
  {
    assert ([[]] + parts)[1..] == parts;
    assert ([c] + seps)[1..] == seps;
  }

  /**
   * Every piece between separators, keeping all empty pieces (SplitAllRejoins
   * shows there is one more piece than separators, and that the pieces are
   * exactly the text between them).
   */
  function SplitAll(s: string): (parts: seq<string>)
    ensures |parts| >= 1
    ensures forall k, i :: 0 <= k < |parts| && 0 <= i < |parts[k]| ==> !IsSeparator(parts[k][i])
  {
    if s == [] then [[]]
    else if IsSeparator(s[0]) then [[]] + SplitAll(s[1..])
    else
      var rest := SplitAll(s[1..]);
      [[s[0]] + rest[0]] + rest[1..]
  }

  /**
   * SplitAll gives one more piece than s has separators, and joining the pieces
   * with s's own separators, in order, gives s back; as no piece holds a
   * separator, this fixes every piece.
   */
  lemma {:induction false} SplitAllRejoins(s: string)
    ensures |SplitAll(s)| == |SeparatorsOf(s)| + 1
    ensures Interleave(SplitAll(s), SeparatorsOf(s)) == s
  {
    if s != [] {
      var rest := SplitAll(s[1..]);
      SplitAllRejoins(s[1..]);
      if IsSeparator(s[0]) {
        assert SeparatorsOf(s) == [s[0]] + SeparatorsOf(s[1..]);
        assert SplitAll(s) == [[]] + rest;
        InterleaveSeparatorFirst(s[0], rest, SeparatorsOf(s[1..]));
      } else {
        assert SeparatorsOf(s) == SeparatorsOf(s[1..]);
        SplitAllOfLetterShape(s);
        InterleaveExtendFirst(s[0], rest, SeparatorsOf(s[1..]));
      }
      assert [s[0]] + s[1..] == s;
    }
  }

  /** Drops the empty strings at the end of a split result. */
  function DropTrailingEmpty(parts: seq<string>): (r: seq<string>)
    ensures |r| <= |parts| && r == parts[..|r|]
    ensures forall k :: |r| <= k < |parts| ==> parts[k] == []
    ensures r != [] ==> r[|r| - 1] != []
  {
    if parts == [] then []
    else if parts[|parts| - 1] == [] then DropTrailingEmpty(parts[..|parts| - 1])
    else parts
  }

  predicate HasSeparator(s: string) {
    exists k :: 0 <= k < |s| && IsSeparator(s[k])
  }

  /**
   * String.split("[_-]"): a string without a separator gives itself as the only
   * piece; otherwise the pieces between separators with the trailing empty ones dropped.
   */
  function JavaSplit(s: string): (parts: seq<string>)
    ensures !HasSeparator(s) ==> parts == [s]
    ensures forall k, i :: 0 <= k < |parts| && 0 <= i < |parts[k]| ==> !IsSeparator(parts[k][i])
    ensures HasSeparator(s) && parts != [] ==> parts[|parts| - 1] != []
    ensures HasSeparator(s) ==> |parts| <= |SplitAll(s)| && parts == SplitAll(s)[..|parts|]
    ensures HasSeparator(s) ==> forall k :: |parts| <= k < |SplitAll(s)| ==> SplitAll(s)[k] == []
  {
    if !HasSeparator(s) then [s] else DropTrailingEmpty(SplitAll(s))
  }

  /** The concatenation of the capitalised pieces. */
  function ConcatCapitalized(parts: seq<string>): string {
    if parts == [] then [] else Capitalize(parts[0]) + ConcatCapitalized(parts[1..])
  }

  /** The first piece as it is, then the capitalised remaining pieces. */
  function ConcatFieldStyle(parts: seq<string>): string {
    if parts == [] then [] else parts[0] + ConcatCapitalized(parts[1..])
  }

  /**
   * Reference definition of the naming rule, character by character: separators
   * are dropped and the character after a separator is upper-cased; `upperNext`
   * says whether the first character is upper-cased too.
   */
  function CamelCase(s: string, upperNext: bool): (r: string)
    ensures |r| <= |s|
    ensures forall k :: 0 <= k < |r| ==> !IsSeparator(r[k])
  {
    if s == [] then []
    else if IsSeparator(s[0]) then CamelCase(s[1..], true)
    else [if upperNext then ToUpper(s[0]) else s[0]] + CamelCase(s[1..], false)
  }

  lemma {:induction false} ConcatCapitalizedAppend(parts: seq<string>, last: string)
    ensures ConcatCapitalized(parts + [last]) == ConcatCapitalized(parts) + Capitalize(last)
  {
    if parts != [] {
      assert (parts + [last])[1..] == parts[1..] + [last];
      ConcatCapitalizedAppend(parts[1..], last);
    }
  }

  /** Joining the raw pieces gives the character-level rule. */
  lemma {:induction false} SplitAllIsCamelCase(s: string, upperFirst: bool)
    ensures (if upperFirst then ConcatCapitalized(SplitAll(s)) else ConcatFieldStyle(SplitAll(s)))
            == CamelCase(s, upperFirst)
  {
    if s == [] {
    } else if IsSeparator(s[0]) {
      SplitAllIsCamelCase(s[1..], true);
      assert SplitAll(s)[1..] == SplitAll(s[1..]);
    } else {
      SplitAllIsCamelCase(s[1..], false);
      SplitAllOfLetter(s, upperFirst);
    }
  }

  /** The step of SplitAllIsCamelCase for a name whose first character is not a separator. */
  lemma SplitAllOfLetter(s: string, upperFirst: bool)
    requires s != [] && !IsSeparator(s[0])
    requires ConcatFieldStyle(SplitAll(s[1..])) == CamelCase(s[1..], false)
    ensures (if upperFirst then ConcatCapitalized(SplitAll(s)) else ConcatFieldStyle(SplitAll(s)))
            == CamelCase(s, upperFirst)
  {
    var rest := SplitAll(s[1..]);
    var tail := ConcatCapitalized(rest[1..]);
    var head := if upperFirst then ToUpper(s[0]) else s[0];
    SplitAllOfLetterShape(s);
    assert CamelCase(s, upperFirst) == [head] + (rest[0] + tail) by {
      JoinsOfCons(rest[0], rest[1..]);
      assert rest == [rest[0]] + rest[1..];
    }
    JoinsOfCons([s[0]] + rest[0], rest[1..]);
    if upperFirst {
      CapitalizeCons(s[0], rest[0]);
    }
    ConcatAssociative([head], rest[0], tail);
  }

  /** A leading non-separator joins the first piece of the rest. */
  lemma SplitAllOfLetterShape(s: string)
    requires s != [] && !IsSeparator(s[0])
    ensures SplitAll(s) == [[s[0]] + SplitAll(s[1..])[0]] + SplitAll(s[1..])[1..]
  {
  }

  lemma ConcatAssociative(a: string, b: string, c: string)
    ensures a + (b + c) == (a + b) + c
  {
  }

  /** Both joins, on a list given as its first piece and the others. */
  lemma JoinsOfCons(first: string, others: seq<string>)
    ensures ConcatCapitalized([first] + others) == Capitalize(first) + ConcatCapitalized(others)
    ensures ConcatFieldStyle([first] + others) == first + ConcatCapitalized(others)
  {
    assert ([first] + others)[1..] == others;
  }

  /** Capitalising a string upper-cases its first character and keeps the rest. */
  lemma CapitalizeCons(c: char, t: string)
    ensures Capitalize([c] + t) == [ToUpper(c)] + t
  {
    var r := Capitalize([c] + t);
    assert r[1..] == t;
    assert r == [r[0]] + r[1..];
  }

  lemma ConcatFieldStyleAppend(parts: seq<string>, last: string)
    requires parts != []
    ensures ConcatFieldStyle(parts + [last]) == ConcatFieldStyle(parts) + Capitalize(last)
  {
    assert (parts + [last])[0] == parts[0];
    assert (parts + [last])[1..] == parts[1..] + [last];
    ConcatCapitalizedAppend(parts[1..], last);
  }

  /** Dropping the trailing empty pieces changes neither join. */
  lemma {:induction false} DropTrailingEmptyKeepsJoins(parts: seq<string>)
    ensures ConcatCapitalized(DropTrailingEmpty(parts)) == ConcatCapitalized(parts)
    ensures ConcatFieldStyle(DropTrailingEmpty(parts)) == ConcatFieldStyle(parts)
  {
    if parts != [] && parts[|parts| - 1] == [] {
      var init := parts[..|parts| - 1];
      assert parts == init + [[]];
      DropTrailingEmptyKeepsJoins(init);
      ConcatCapitalizedAppend(init, []);
      if init != [] {
        ConcatFieldStyleAppend(init, []);
      }
    }
  }

  lemma SplitAllWithoutSeparator(s: string)
    requires !HasSeparator(s)
    ensures SplitAll(s) == [s]
  {
    if s != [] {
      assert !HasSeparator(s[1..]) by {
        forall k | 0 <= k < |s[1..]| ensures !IsSeparator(s[1..][k]) {
          assert s[1..][k] == s[k + 1];
        }
      }
      SplitAllWithoutSeparator(s[1..]);
      assert [s[0]] + s[1..] == s;
    }
  }

  /** Joining the pieces of JavaSplit gives the character-level rule. */
  lemma JavaSplitIsCamelCase(s: string, upperFirst: bool)
    ensures (if upperFirst then ConcatCapitalized(JavaSplit(s)) else ConcatFieldStyle(JavaSplit(s)))
            == CamelCase(s, upperFirst)
  {
    SplitAllIsCamelCase(s, upperFirst);
    if HasSeparator(s) {
      DropTrailingEmptyKeepsJoins(SplitAll(s));
    } else {
      SplitAllWithoutSeparator(s);
    }
  }

  /**
   * convertToJavaClassName: the file name up to its first '.', split at '_' and
   * '-', each piece capitalised and the pieces concatenated.
   */
  method ConvertToJavaClassName(name: string) returns (out: string)
    ensures out == CamelCase(BeforeFirstDot(name), true)
  {
    var base := BeforeFirstDot(name);
    var split := JavaSplit(base);
    out := [];
    for i := 0 to |split|
      invariant out == ConcatCapitalized(split[..i])
    {
      CapitalizedStep(split, i);
      out := out + Capitalize(split[i]);
    }
    assert split[..|split|] == split;
    JavaSplitIsCamelCase(base, true);
  }

  /**
   * convertToJavaFieldName: as the class name, except that the first piece is
   * appended unchanged.
   */
  method ConvertToJavaFieldName(name: string) returns (out: string)
    ensures out == CamelCase(BeforeFirstDot(name), false)
  {
    var base := BeforeFirstDot(name);
    var split := JavaSplit(base);
    out := [];
    var first := true;
    for i := 0 to |split|
      invariant first <==> i == 0
      invariant out == ConcatFieldStyle(split[..i])
    {
      FieldStyleStep(split, i);
      if first {
        first := false;
        out := out + split[i];
      } else {
        out := out + Capitalize(split[i]);
      }
    }
    assert split[..|split|] == split;
    JavaSplitIsCamelCase(base, false);
  }

  /** One more piece of the capitalising join. */
  lemma CapitalizedStep(parts: seq<string>, i: nat)
    requires i < |parts|
    ensures ConcatCapitalized(parts[..i + 1]) == ConcatCapitalized(parts[..i]) + Capitalize(parts[i])
  {
    assert parts[..i + 1] == parts[..i] + [parts[i]];
    ConcatCapitalizedAppend(parts[..i], parts[i]);
  }

  /** One more piece of the field-style join: the first piece as it is, any later one capitalised. */
  lemma FieldStyleStep(parts: seq<string>, i: nat)
    requires i < |parts|
    ensures ConcatFieldStyle(parts[..i + 1])
            == if i == 0 then parts[0] else ConcatFieldStyle(parts[..i]) + Capitalize(parts[i])
  {
    assert parts[..i + 1] == parts[..i] + [parts[i]];
    if i == 0 {
      assert parts[..1] == [parts[0]];
    } else {
      ConcatFieldStyleAppend(parts[..i], parts[i]);
    }
  }

  /** The class name is the capitalised field name. */
  lemma {:induction false} ClassNameCapitalizesFieldName(s: string)
    ensures CamelCase(s, true) == Capitalize(CamelCase(s, false))
  {
    if s != [] && IsSeparator(s[0]) {
      UpperCamelCaseIsCapitalized(s[1..]);
    }
  }

  /** The result of the upper-case rule is left unchanged by capitalisation. */
  lemma {:induction false} UpperCamelCaseIsCapitalized(s: string)
    ensures Capitalize(CamelCase(s, true)) == CamelCase(s, true)
  {
    if s != [] && IsSeparator(s[0]) {
      UpperCamelCaseIsCapitalized(s[1..]);
    }
  }

  lemma {:induction false} CamelCaseWithoutSeparator(s: string, upperNext: bool)
    requires forall k :: 0 <= k < |s| ==> !IsSeparator(s[k])
    ensures CamelCase(s, upperNext) == if s == [] then [] else [if upperNext then ToUpper(s[0]) else s[0]] + s[1..]
  {
    if s != [] {
      CamelCaseWithoutSeparator(s[1..], false);
    }
  }

  lemma {:induction false} CamelCaseKeepsMissing(s: string, upperNext: bool, c: char)
    requires c !in s && !('A' <= c <= 'Z')
    ensures c !in CamelCase(s, upperNext)
  {
    if s != [] {
      CamelCaseKeepsMissing(s[1..], IsSeparator(s[0]), c);
    }
  }

  /** Converting a generated class name again gives it back unchanged. */
  lemma ClassNameIsIdempotent(name: string)
    ensures CamelCase(BeforeFirstDot(CamelCase(BeforeFirstDot(name), true)), true)
            == CamelCase(BeforeFirstDot(name), true)
  {
    var c := CamelCase(BeforeFirstDot(name), true);
    CamelCaseKeepsMissing(BeforeFirstDot(name), true, '.');
    assert IndexOf(c, '.') == -1;
    assert BeforeFirstDot(c) == c;
    CamelCaseWithoutSeparator(c, true);
    UpperCamelCaseIsCapitalized(BeforeFirstDot(name));
  }

  // ---------------------------------------------------------------------------
  // Import aliases
  // ---------------------------------------------------------------------------

  /**
   * getAlias(type, alias): an explicit alias wins; without one, the simple name
   * of the type, after its last '.' or '$'; None for a missing type or for a type
   * that ends in its separator.
   */
  function GetAlias(typeName: Option<string>, alias: Option<string>): (r: Option<string>)
    ensures alias.Some? || typeName.None? ==> r == alias
    ensures alias.None? && r.Some? ==>
              && typeName.Some?
              && '.' !in r.value && '$' !in r.value
              && |r.value| <= |typeName.value|
              && typeName.value[|typeName.value| - |r.value|..] == r.value
    ensures alias.None? && typeName.Some? && r.None? ==>
              typeName.value != [] && typeName.value[|typeName.value| - 1] in {'.', '$'}
    ensures alias.None? && typeName.Some? && '.' !in typeName.value && '$' !in typeName.value ==>
              r == typeName
    ensures alias.None? && typeName.Some? && r.Some? ==>
              var t := typeName.value;
              |r.value| == |t| || (r.value != [] && t[|t| - |r.value| - 1] in {'.', '$'})
    ensures alias.None? && typeName.Some? && typeName.value != [] ==>
              (typeName.value[|typeName.value| - 1] in {'.', '$'} ==> r.None?)
  {
    if alias.Some? || typeName.None? then alias
    else
      var t := typeName.value;
      var dot := LastIndexOf(t, '.');
      var dollar := LastIndexOf(t, '$');
      var i := if dot > dollar then dot else dollar;
      if i < 0 then typeName
      else if |t| > i + 1 then Some(t[i + 1..])
      else None
  }

  /** The alias of a qualified name is its simple name. */
  lemma AliasOfQualifiedName(qualifier: string, simpleName: string)
    requires simpleName != [] && '.' !in simpleName && '$' !in simpleName
    ensures GetAlias(Some(qualifier + "." + simpleName), None) == Some(simpleName)
  {
    var t := qualifier + "." + simpleName;
    assert t[|qualifier|] == '.';
    assert t[|qualifier| + 1..] == simpleName;
    var dot := LastIndexOf(t, '.');
    var dollar := LastIndexOf(t, '$');
    assert dot == |qualifier|;
    assert dollar < dot;
  }

  /** The alias of a nested class name is its own simple name. */
  lemma AliasOfNestedName(outer: string, inner: string)
    requires inner != [] && '.' !in inner && '$' !in inner
    ensures GetAlias(Some(outer + "$" + inner), None) == Some(inner)
  {
    var t := outer + "$" + inner;
    assert t[|outer|] == '$';
    assert t[|outer| + 1..] == inner;
    var dot := LastIndexOf(t, '.');
    var dollar := LastIndexOf(t, '$');
    assert dollar == |outer|;
    assert dot < dollar;
  }

  /** The first dot-separated segment of a class name. */
  function FirstSegment(className: string): (r: string)
    ensures '.' !in r && StartsWith(className, r)
    ensures r == className || (|r| < |className| && className[|r|] == '.')
  {
    BeforeFirstDot(className)
  }

  /**
   * resolveImport: when the data-binding info is present and imports the first
   * segment of the class name, that segment is replaced by the imported type;
   * otherwise the class name is returned unchanged. `imports` maps each alias
   * to its imported type (None for a missing data-binding info).
   */
  function ResolveImport(className: string, imports: Option<map<string, string>>): (r: string)
    ensures imports.None? || FirstSegment(className) !in imports.value ==> r == className
    ensures imports.Some? && FirstSegment(className) in imports.value ==>
              r == imports.value[FirstSegment(className)] + className[|FirstSegment(className)|..]
  {
    if imports.Some? then
      var dotOffset := IndexOf(className, '.');
      var firstSegment := if dotOffset >= 0 then className[..dotOffset] else className;
      if firstSegment in imports.value then
        var importedType := imports.value[firstSegment];
        if dotOffset >= 0 then importedType + className[dotOffset..] else importedType
      else className
    else className
  }

  /** Before a prefix free of c, indexOf(c) moves by the prefix's length. */
  lemma {:induction false} IndexOfAfterPrefix(a: string, s: string, c: char)
    requires c !in a
    ensures IndexOf(a + s, c) == if IndexOf(s, c) < 0 then -1 else |a| + IndexOf(s, c)
  {
    if a == [] {
      assert a + s == s;
    } else {
      assert (a + s)[1..] == a[1..] + s;
      IndexOfAfterPrefix(a[1..], s, c);
    }
  }

  /** In a + "." + b with no dot in a, the first dot is the one after a. */
  lemma IndexOfJoinedDot(a: string, b: string)
    requires '.' !in a
    ensures IndexOf(a + "." + b, '.') == |a|
    ensures (a + "." + b)[..|a|] == a && (a + "." + b)[|a|..] == "." + b
  {
    assert a + "." + b == a + ("." + b);
    IndexOfAfterPrefix(a, "." + b, '.');
  }

  /**
   * An import declared without an explicit alias is found again through its
   * simple name: resolving the alias, or a nested class of it, yields the
   * declared type.
   */
  lemma ResolveImportOfAlias(qualifier: string, simpleName: string, nested: string)
    requires simpleName != [] && '.' !in simpleName && '$' !in simpleName
    ensures var typeName := qualifier + "." + simpleName;
            var imports := map[GetAlias(Some(typeName), None).value := typeName];
            && ResolveImport(simpleName, Some(imports)) == typeName
            && ResolveImport(simpleName + "." + nested, Some(imports)) == typeName + "." + nested
  {
    AliasOfQualifiedName(qualifier, simpleName);
    var typeName := qualifier + "." + simpleName;
    var imports := map[simpleName := typeName];
    assert IndexOf(simpleName, '.') == -1;
    assert FirstSegment(simpleName) == simpleName;
    IndexOfJoinedDot(simpleName, nested);
    var inner := simpleName + "." + nested;
    assert FirstSegment(inner) == simpleName;
    assert inner[|simpleName|..] == "." + nested;
  }

  // ---------------------------------------------------------------------------
  // Binding expressions
  // ---------------------------------------------------------------------------

  const PrefixBindingExpr: string := "@{"
  const PrefixTwoWayBindingExpr: string := "@={"
  /** The text of the `default` keyword token of the binding-expression language. */
  const DefaultKeyword: string := "default"

  /** isBindingExpression: the string starts with "@{" or "@={". */
  predicate IsBindingExpression(s: string)
    ensures IsBindingExpression(s) <==>
              |s| >= 2 && s[0] == '@' && (s[1] == '{' || (|s| >= 3 && s[1] == '=' && s[2] == '{'))
  {
    StartsWith(s, PrefixBindingExpr) || StartsWith(s, PrefixTwoWayBindingExpr)
  }

  /** The characters of the regular-expression class \s. */
  predicate IsRegexSpace(c: char) {
    c == ' ' || c == '\t' || c == '\n' || c == 11 as char || c == 12 as char || c == '\r'
  }

  /** The first index at or after i that is not a \s character (|s| when there is none). */
  function SkipSpaces(s: string, i: nat): (j: nat)
    requires i <= |s|
    ensures i <= j <= |s|
    ensures forall k :: i <= k < j ==> IsRegexSpace(s[k])
    ensures j < |s| ==> !IsRegexSpace(s[j])
    decreases |s| - i
  {
    if i < |s| && IsRegexSpace(s[i]) then SkipSpaces(s, i + 1) else i
  }

  /**
   * Whether the pattern ",\s*default\s*=\s*" matches at position p, and where the
   * match ends. Every \s* is greedy and is followed by a non-space, so the match
   * at p is unique.
   */
  function MatchDefaultAt(s: string, p: nat): (r: Option<nat>)
    requires p <= |s|
    ensures r.Some? ==> p < r.value <= |s| && s[p] == ','
    ensures r.Some? ==> forall q :: p < q < r.value ==> s[q] != ','
  {
    if p < |s| && s[p] == ',' then
      var j := SkipSpaces(s, p + 1);
      if j + |DefaultKeyword| <= |s| && s[j..j + |DefaultKeyword|] == DefaultKeyword then
        var k := SkipSpaces(s, j + |DefaultKeyword|);
        if k < |s| && s[k] == '=' then
          var e := SkipSpaces(s, k + 1);
          assert forall q :: j <= q < j + |DefaultKeyword| ==> s[q] == DefaultKeyword[q - j];
          Some(e)
        else None
      else None
    else None
  }

  /** The end of the last match that starts before position n, or 0 when none does. */
  function LastMatchEnd(s: string, n: nat): (e: nat)
    requires n <= |s|
    ensures e <= |s|
  {
    if n == 0 then 0
    else match MatchDefaultAt(s, n - 1)
      case Some(end) => end
      case None => LastMatchEnd(s, n - 1)
  }

  /** No match starts strictly inside a match, so the last match end is unchanged across it. */
  lemma {:induction false} LastMatchEndInsideMatch(s: string, p: nat, q: nat)
    requires p < |s| && MatchDefaultAt(s, p).Some? && p + 1 <= q <= MatchDefaultAt(s, p).value
    ensures LastMatchEnd(s, q) == MatchDefaultAt(s, p).value
  {
    if q > p + 1 {
      LastMatchEndInsideMatch(s, p, q - 1);
    }
  }

  /**
   * The loop `while (matcher.find()) index = matcher.end();`: the end of the last
   * match of ",\s*default\s*=\s*" in s, 0 when there is none.
   */
  method FindLastDefaultEnd(s: string) returns (index: nat)
    ensures index == LastMatchEnd(s, |s|)
  {
    index := 0;
    var from := 0;
    while from < |s|
      invariant from <= |s|
      invariant index == LastMatchEnd(s, from)
    {
      var m := MatchDefaultAt(s, from);
      if m.Some? {
        LastMatchEndInsideMatch(s, from, m.value);
        index := m.value;
        from := m.value;
      } else {
        from := from + 1;
      }
    }
  }

  /** trim's first loop: from i, the index of the first character above ' ' (|s| when there is none). */
  function TrimStart(s: string, i: nat): (st: nat)
    requires i <= |s|
    ensures i <= st <= |s|
    ensures forall k :: i <= k < st ==> s[k] <= ' '
    ensures st < |s| ==> s[st] > ' '
    decreases |s| - i
  {
    if i < |s| && s[i] <= ' ' then TrimStart(s, i + 1) else i
  }

  /** trim's second loop: len moves down past the characters up to ' ', but never below st. */
  function TrimEnd(s: string, st: nat, len: nat): (e: nat)
    requires st <= len <= |s|
    ensures st <= e <= len
    ensures forall k :: e <= k < len ==> s[k] <= ' '
    ensures st < e ==> s[e - 1] > ' '
  {
    if st < len && s[len - 1] <= ' ' then TrimEnd(s, st, len - 1) else len
  }

  /**
   * String.trim: removes the characters up to ' ' (code 32) at both ends. The
   * result is a middle part of s, and only such characters lie outside it.
   */
  function Trim(s: string): (r: string)
    ensures |r| <= |s|
    ensures r != [] ==> r[0] > ' ' && r[|r| - 1] > ' '
    ensures exists i, j :: 0 <= i <= j <= |s| && r == s[i..j]
                           && (forall k :: 0 <= k < i ==> s[k] <= ' ')
                           && (forall k :: j <= k < |s| ==> s[k] <= ' ')
  {
    var st := TrimStart(s, 0);
    s[st..TrimEnd(s, st, |s|)]
  }

  lemma {:induction false} TrimOfTrimmed(s: string)
    requires s != [] ==> s[0] > ' ' && s[|s| - 1] > ' '
    ensures Trim(s) == s
  {
  }

  /** The exceptions a string operation of this module can throw. */
  datatype StringError = StringIndexOutOfBounds

  /**
   * getBindingExprDefault(String) as the source writes it: None when the
   * expression lacks the default keyword; otherwise the text after the last
   * match of ",\s*default\s*=\s*" (from 0 when there is none) without the last
   * character, trimmed, and with one pair of surrounding quotes removed.
   * The unquoting calls substring(1, length - 1) on a one-character string that
   * is a lone quote, which throws.
   */
  function BindingExprDefaultAsWritten(s: string): (r: Result<Option<string>, StringError>)
    ensures !Contains(s, DefaultKeyword) ==> r == Ok(None)
    ensures r.Ok? && r.value.Some? ==> |r.value.value| < |s|
  {
    if !Contains(s, DefaultKeyword) then Ok(None)
    else
      var index := LastMatchEnd(s, |s|);
      if index > |s| - 1 then Err(StringIndexOutOfBounds)
      else
        var def := Trim(s[index..|s| - 1]);
        if StartsWith(def, "\"") && |def| >= 1 && def[|def| - 1] == '"' then
          if 1 <= |def| - 1 then Ok(Some(def[1..|def| - 1])) else Err(StringIndexOutOfBounds)
        else Ok(Some(def))
  }

  /** The lone quote that the as-written unquoting cannot handle. */
  lemma LoneQuoteDefaultThrows()
    ensures BindingExprDefaultAsWritten("@{x, default=\"}") == Err(StringIndexOutOfBounds)
  {
    var s := "@{x, default=\"}";
    LoneQuoteMatch();
    assert s[13..14] == "\"";
    assert Trim("\"") == "\"";
  }

  /** In the lone-quote expression the keyword occurs, and the only match ends just before the quote. */
  lemma LoneQuoteMatch()
    ensures Contains("@{x, default=\"}", DefaultKeyword)
    ensures LastMatchEnd("@{x, default=\"}", 15) == 13
  {
    var s := "@{x, default=\"}";
    assert OccursAt(s, DefaultKeyword, 5) by {
      assert s[5..12] == DefaultKeyword;
    }
    assert MatchDefaultAt(s, 3) == Some(13) by {
      assert SkipSpaces(s, 4) == 5;
      assert s[5..12] == DefaultKeyword;
      assert SkipSpaces(s, 12) == 12;
      assert SkipSpaces(s, 13) == 13;
    }
    LastMatchEndAfter(s, 3, |s|);
  }

  /**
   * Removes one pair of surrounding quotes; a lone quote is kept, as the
   * XmlAttribute variant of getBindingExprDefault keeps a one-character literal.
   */
  function Unquote(def: string): (r: string)
    ensures |r| <= |def|
    ensures |def| >= 2 && def[0] == '"' && def[|def| - 1] == '"' ==> "\"" + r + "\"" == def
    ensures !(|def| >= 2 && def[0] == '"' && def[|def| - 1] == '"') ==> r == def
  {
    if |def| >= 2 && def[0] == '"' && def[|def| - 1] == '"' then def[1..|def| - 1] else def
  }

  /**
   * getBindingExprDefault(String) with the unquoting guarded: the same result as
   * the source wherever the source does not throw.
   */
  function BindingExprDefault(s: string): (r: Result<Option<string>, StringError>)
    ensures !Contains(s, DefaultKeyword) ==> r == Ok(None)
    ensures r.Err? <==> Contains(s, DefaultKeyword) && LastMatchEnd(s, |s|) == |s|
    ensures BindingExprDefaultAsWritten(s).Ok? ==> r == BindingExprDefaultAsWritten(s)
  {
    if !Contains(s, DefaultKeyword) then Ok(None)
    else
      var index := LastMatchEnd(s, |s|);
      if index > |s| - 1 then Err(StringIndexOutOfBounds)
      else Ok(Some(Unquote(Trim(s[index..|s| - 1]))))
  }

  /** getBindingExprDefault(String), with the matcher loop of the source. */
  method GetBindingExprDefault(s: string) returns (r: Result<Option<string>, StringError>)
    ensures r == BindingExprDefault(s)
  {
    if !Contains(s, DefaultKeyword) {
      return Ok(None);
    }
    var index := FindLastDefaultEnd(s);
    if index > |s| - 1 {
      return Err(StringIndexOutOfBounds);
    }
    var def := Trim(s[index..|s| - 1]);
    r := Ok(Some(Unquote(def)));
  }

  /** A match can only end at |s| when the last character is not '}', so an expression closed by '}' never fails. */
  lemma BindingExprDefaultOfClosedExpression(s: string)
    requires s != [] && s[|s| - 1] == '}'
    ensures BindingExprDefault(s).Ok?
  {
    LastMatchEndBeforeBrace(s, |s|);
  }

  lemma {:induction false} LastMatchEndBeforeBrace(s: string, n: nat)
    requires s != [] && s[|s| - 1] == '}' && n <= |s|
    ensures LastMatchEnd(s, n) < |s|
  {
    if n > 0 {
      var m := MatchDefaultAt(s, n - 1);
      if m.Some? {
        MatchEndBeforeBrace(s, n - 1);
      } else {
        LastMatchEndBeforeBrace(s, n - 1);
      }
    }
  }

  /** A match ends before a closing '}': the '=' is not the brace, and \s* cannot consume it. */
  lemma MatchEndBeforeBrace(s: string, p: nat)
    requires p < |s| && s[|s| - 1] == '}' && MatchDefaultAt(s, p).Some?
    ensures MatchDefaultAt(s, p).value < |s|
  {
    var j := SkipSpaces(s, p + 1);
    var k := SkipSpaces(s, j + |DefaultKeyword|);
    assert k < |s| && s[k] == '=';
    var e := SkipSpaces(s, k + 1);
    assert e == MatchDefaultAt(s, p).value;
    assert !IsRegexSpace(s[|s| - 1]);
  }

  /**
   * The default written last in an expression is the one read: for
   * "@{" + e + ",default=" + w + "}" with w free of commas and not starting
   * with white space, the result is w trimmed and unquoted.
   */
  lemma DefaultOfLastKeyword(e: string, w: string)
    requires ',' !in w
    requires w != [] ==> w[0] > ' '
    ensures BindingExprDefault("@{" + e + ",default=" + w + "}") == Ok(Some(Unquote(Trim(w))))
  {
    var s := "@{" + e + ",default=" + w + "}";
    var p := 2 + |e|;
    assert s[p] == ',';
    assert s[p + 1..p + 8] == DefaultKeyword;
    assert OccursAt(s, DefaultKeyword, p + 1);
    assert SkipSpaces(s, p + 1) == p + 1;
    assert SkipSpaces(s, p + 8) == p + 8;
    assert s[p + 8] == '=';
    if w != [] {
      assert s[p + 9] == w[0];
    } else {
      assert s[p + 9] == '}';
    }
    assert SkipSpaces(s, p + 9) == p + 9;
    assert MatchDefaultAt(s, p) == Some(p + 9);
    LastMatchEndAfter(s, p, |s|);
    assert s[p + 9..|s| - 1] == w;
  }

  /**
   * The write-then-read round trip for an unquoted default: a trimmed v free of
   * commas and quotes is read back as v.
   */
  lemma BindingExprDefaultFindsValue(e: string, v: string)
    requires ',' !in v && '"' !in v
    requires v != [] ==> v[0] > ' ' && v[|v| - 1] > ' '
    ensures BindingExprDefault("@{" + e + ",default=" + v + "}") == Ok(Some(v))
  {
    DefaultOfLastKeyword(e, v);
    TrimOfTrimmed(v);
  }

  /**
   * The write-then-read round trip for a quoted default: for any v free of
   * commas, the default written as "v" (in double quotes) is read back as v,
   * with one pair of quotes stripped.
   */
  lemma BindingExprDefaultFindsQuotedValue(e: string, v: string)
    requires ',' !in v
    ensures BindingExprDefault("@{" + e + ",default=" + ("\"" + v + "\"") + "}") == Ok(Some(v))
  {
    var q := "\"" + v + "\"";
    assert q[0] == '"' && q[|q| - 1] == '"';
    assert ',' !in q by {
      assert forall k :: 0 <= k < |q| ==> q[k] == '"' || q[k] == v[k - 1];
    }
    DefaultOfLastKeyword(e, q);
    TrimOfTrimmed(q);
    assert q[1..|q| - 1] == v;
  }

  /** With no comma after position p, the last match is the one at p. */
  lemma {:induction false} LastMatchEndAfter(s: string, p: nat, n: nat)
    requires p < n <= |s| && MatchDefaultAt(s, p).Some?
    requires forall q :: p < q < |s| ==> s[q] != ','
    ensures LastMatchEnd(s, n) == MatchDefaultAt(s, p).value
  {
    if n > p + 1 {
      LastMatchEndAfter(s, p, n - 1);
    }
  }

  // ---------------------------------------------------------------------------
  // View class of a layout tag
  // ---------------------------------------------------------------------------

  const ViewPackagePrefix: string := "android.view."
  const WebkitPackagePrefix: string := "android.webkit."
  const WidgetPackagePrefix: string := "android.widget."
  const ClassView: string := "android.view.View"

  /** The simple class names of the android.view package that may appear as tags. */
  const ViewPackageElements: seq<string> := ["View", "ViewGroup", "TextureView", "SurfaceView"]

  /** A layout tag: its name and its android:class attribute. */
  datatype XmlTag = XmlTag(name: string, classAttribute: Option<string>)

  /**
   * What the resource repositories answer for the tags the source resolves
   * there: the qualified binding class of the layout a <merge> or <include>
   * refers to, and the ViewStub proxy class of the module's data-binding mode.
   */
  datatype LayoutLookups = LayoutLookups(layoutReference: Option<string>, viewStubProxy: Option<string>)

  /** getViewName: the tag name, or for a <view> tag its class attribute. */
  function GetViewName(tag: XmlTag): (r: Option<string>)
    ensures tag.name != "view" ==> r == Some(tag.name)
    ensures tag.name == "view" ==> r == tag.classAttribute
  {
    if tag.name == "view" then tag.classAttribute else Some(tag.name)
  }

  /**
   * getViewClassName: the class a tag stands for. A missing or qualified name is
   * returned as it is; View, ViewGroup, TextureView and SurfaceView belong to
   * android.view, WebView to android.webkit; merge, include and ViewStub are
   * looked up; every other simple name belongs to android.widget.
   */
  function GetViewClassName(tag: XmlTag, lookups: LayoutLookups): (r: Option<string>)
    ensures GetViewName(tag).None? ==> r.None?
    ensures GetViewName(tag).Some? && '.' in GetViewName(tag).value ==> r == GetViewName(tag)
  {
    var elementName := GetViewName(tag);
    if elementName.Some? && IndexOf(elementName.value, '.') == -1 then
      var n := elementName.value;
      if n in ViewPackageElements then Some(ViewPackagePrefix + n)
      else if n == "WebView" then Some(WebkitPackagePrefix + n)
      else if n == "merge" then lookups.layoutReference
      else if n == "include" then Some(lookups.layoutReference.GetOr(ClassView))
      else if n == "ViewStub" then lookups.viewStubProxy
      else Some(WidgetPackagePrefix + n)
    else elementName
  }

  /** The names that getViewClassName resolves through the resource repositories. */
  predicate IsLookedUp(n: string) {
    n == "merge" || n == "include" || n == "ViewStub"
  }

  /** The package prefix getViewClassName puts in front of a simple framework tag name. */
  function FrameworkPrefix(n: string): string {
    if n in ViewPackageElements then ViewPackagePrefix
    else if n == "WebView" then WebkitPackagePrefix
    else WidgetPackagePrefix
  }

  /** Each framework prefix is a package name followed by a dot. */
  lemma FrameworkPrefixEndsInDot(n: string)
    ensures var p := FrameworkPrefix(n); p != [] && p[|p| - 1] == '.' && p == p[..|p| - 1] + "."
  {
  }

  lemma {:induction false} SimpleNameInViewPackage(tag: XmlTag, lookups: LayoutLookups, n: string)
    requires GetViewName(tag) == Some(n) && '.' !in n && n in ViewPackageElements
    ensures GetViewClassName(tag, lookups) == Some(ViewPackagePrefix + n)
  {
    assert IndexOf(n, '.') == -1;
  }

  lemma {:induction false} SimpleNameInWebkitPackage(tag: XmlTag, lookups: LayoutLookups, n: string)
    requires GetViewName(tag) == Some(n) && '.' !in n && n == "WebView"
    ensures GetViewClassName(tag, lookups) == Some(WebkitPackagePrefix + n)
  {
    assert IndexOf(n, '.') == -1;
  }

  lemma {:induction false} SimpleNameInWidgetPackage(tag: XmlTag, lookups: LayoutLookups, n: string)
    requires GetViewName(tag) == Some(n) && '.' !in n
    requires n !in ViewPackageElements && n != "WebView" && !IsLookedUp(n)
    ensures GetViewClassName(tag, lookups) == Some(WidgetPackagePrefix + n)
  {
    assert IndexOf(n, '.') == -1;
  }

  /**
   * Every simple tag name that is not looked up is qualified by its framework
   * package.
   */
  lemma ViewClassNameQualifiesSimpleName(tag: XmlTag, lookups: LayoutLookups, n: string)
    requires GetViewName(tag) == Some(n) && '.' !in n && !IsLookedUp(n)
    ensures GetViewClassName(tag, lookups) == Some(FrameworkPrefix(n) + n)
  {
    if n in ViewPackageElements {
      SimpleNameInViewPackage(tag, lookups, n);
    } else if n == "WebView" {
      SimpleNameInWebkitPackage(tag, lookups, n);
    } else {
      SimpleNameInWidgetPackage(tag, lookups, n);
    }
  }

  /** The alias of the class a simple framework tag stands for is the tag name again. */
  lemma ViewClassNameAliasIsTagName(tag: XmlTag, lookups: LayoutLookups)
    requires GetViewName(tag).Some?
    requires var n := GetViewName(tag).value;
             n != [] && '.' !in n && '$' !in n && !IsLookedUp(n)
    ensures GetAlias(GetViewClassName(tag, lookups), None) == GetViewName(tag)
  {
    var n := GetViewName(tag).value;
    ViewClassNameQualifiesSimpleName(tag, lookups, n);
    FrameworkPrefixEndsInDot(n);
    var p := FrameworkPrefix(n);
    assert p + n == p[..|p| - 1] + "." + n;
    AliasOfQualifiedName(p[..|p| - 1], n);
  }
}
