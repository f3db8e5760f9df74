/**
  Classification of a saved file by the suffix of its name
  (`CheckFilenameExtension` and `DetermineFileType`).
 */
module FileTypes {
  import opened Strings

  datatype FileType = Unknown | Other | Less | Css | Js

  const LessExtensions: seq<string> := [".less"]
  // "css.bundle" has no leading dot in the source, unlike ".js.bundle"
  const CssExtensions: seq<string> := [".css", "css.bundle"]
  const JsExtensions: seq<string> := [".js", ".js.bundle"]
  const OtherExtensions: seq<string> := [".sass", ".coffee"]

  /** Some suffix in `extensions` ends `filename`. */
  ghost predicate MatchesAny(filename: string, extensions: seq<string>) {
    exists i :: 0 <= i < |extensions| && EndsWith(filename, extensions[i])
  }

  /** `CheckFilenameExtension`: the suffixes are tried in order and the first that matches answers true. */
  function CheckFilenameExtension(filename: string, extensions: seq<string>): (r: bool)
    ensures r <==> MatchesAny(filename, extensions)
    decreases |extensions|
  {
    if extensions == [] then false
    else if EndsWith(filename, extensions[0]) then true
    else
      var r := CheckFilenameExtension(filename, extensions[1..]);
      assert forall i :: 1 <= i < |extensions| ==> extensions[i] == extensions[1..][i - 1];
      r
  }

  /** The suffix list that defines each known file type. */
  function ExtensionsOf(t: FileType): seq<string> {
    match t
    case Unknown => []
    case Other => OtherExtensions
    case Less => LessExtensions
    case Css => CssExtensions
    case Js => JsExtensions
  }

  /**
    `DetermineFileType`: the first of Less, Css, Js, Other whose suffix list
    matches, and Unknown when no suffix of any list matches.
   */
  function DetermineFileType(filename: string): (t: FileType)
    ensures t == Less <==> MatchesAny(filename, LessExtensions)
    ensures t == Css <==> !MatchesAny(filename, LessExtensions) && MatchesAny(filename, CssExtensions)
    ensures t == Js <==>
      !MatchesAny(filename, LessExtensions) && !MatchesAny(filename, CssExtensions)
      && MatchesAny(filename, JsExtensions)
    ensures t == Other <==>
      !MatchesAny(filename, LessExtensions) && !MatchesAny(filename, CssExtensions)
      && !MatchesAny(filename, JsExtensions) && MatchesAny(filename, OtherExtensions)
    ensures t == Unknown <==>
      !MatchesAny(filename, LessExtensions) && !MatchesAny(filename, CssExtensions)
      && !MatchesAny(filename, JsExtensions) && !MatchesAny(filename, OtherExtensions)
  {
    if CheckFilenameExtension(filename, LessExtensions) then Less
    else if CheckFilenameExtension(filename, CssExtensions) then Css
    else if CheckFilenameExtension(filename, JsExtensions) then Js
    else if CheckFilenameExtension(filename, OtherExtensions) then Other
    else Unknown
  }

  /** Two suffixes of one name: one of them is a suffix of the other. */
  lemma SuffixesNest(filename: string, a: string, b: string)
    ensures EndsWith(filename, a) && EndsWith(filename, b) ==> EndsWith(b, a) || EndsWith(a, b)
  {
    if EndsWith(filename, a) && EndsWith(filename, b) {
      if |a| <= |b| {
        assert b[|b| - |a|..] == filename[|filename| - |a|..];
      } else {
        assert a[|a| - |b|..] == filename[|filename| - |b|..];
      }
    }
  }

  /** No suffix of one list is a suffix of a suffix in another list. */
  ghost predicate ListsExclusive(xs: seq<string>, ys: seq<string>) {
    forall i, j :: 0 <= i < |xs| && 0 <= j < |ys| ==> !EndsWith(xs[i], ys[j]) && !EndsWith(ys[j], xs[i])
  }

  lemma ExclusiveListsNeverBothMatch(filename: string, xs: seq<string>, ys: seq<string>)
    requires ListsExclusive(xs, ys)
    ensures !(MatchesAny(filename, xs) && MatchesAny(filename, ys))
  {
    forall i, j | 0 <= i < |xs| && 0 <= j < |ys|
      ensures !(EndsWith(filename, xs[i]) && EndsWith(filename, ys[j]))
    {
      SuffixesNest(filename, xs[i], ys[j]);
    }
  }

  /**
    The four suffix lists never match the same name, so the order in which
    `DetermineFileType` tries them does not matter: a name has a known type
    exactly when that type's own list matches it.
   */
  lemma FileTypeIsOrderIndependent(filename: string, t: FileType)
    requires t != Unknown
    ensures DetermineFileType(filename) == t <==> MatchesAny(filename, ExtensionsOf(t))
  {
    assert ListsExclusive(LessExtensions, CssExtensions);
    assert ListsExclusive(LessExtensions, JsExtensions);
    assert ListsExclusive(LessExtensions, OtherExtensions);
    assert ListsExclusive(CssExtensions, JsExtensions);
    assert ListsExclusive(CssExtensions, OtherExtensions);
    assert ListsExclusive(JsExtensions, OtherExtensions);
    ExclusiveListsNeverBothMatch(filename, LessExtensions, CssExtensions);
    ExclusiveListsNeverBothMatch(filename, LessExtensions, JsExtensions);
    ExclusiveListsNeverBothMatch(filename, LessExtensions, OtherExtensions);
    ExclusiveListsNeverBothMatch(filename, CssExtensions, JsExtensions);
    ExclusiveListsNeverBothMatch(filename, CssExtensions, OtherExtensions);
    ExclusiveListsNeverBothMatch(filename, JsExtensions, OtherExtensions);
  }
}
