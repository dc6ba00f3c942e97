/** Slash-separated paths: the text helpers of crates/front/src/model.rs. */
module Paths {
  import opened Prelude

  type Name = string

  function TrimStart(text: string): string {
    if text != "" && text[0] == '/' then TrimStart(text[1..]) else text
  }

  function TrimEnd(text: string): string {
    if text != "" && text[|text| - 1] == '/' then TrimEnd(text[..|text| - 1]) else text
  }

  function Trim(text: string): string {
    TrimEnd(TrimStart(text))
  }

  function Split(text: string): (names: seq<Name>)
    ensures names != []
  {
    if text == "" then [""]
    else
      var rest := Split(text[1..]);
      if text[0] == '/' then [""] + rest else [[text[0]] + rest[0]] + rest[1..]
  }

  function Join(names: seq<Name>): string {
    if names == [] then ""
    else if |names| == 1 then names[0]
    else names[0] + "/" + Join(names[1..])
  }

  /** The names a path denotes; the empty path and "/" denote the root. */
  function Segments(path: string): seq<Name> {
    var trimmed := Trim(path);
    if trimmed == "" then [] else Split(trimmed)
  }

  /** `split_path`: the root itself is refused. */
  function SplitPath(path: string): Result<seq<Name>> {
    if Segments(path) == [] then Err(EPERM) else Ok(Segments(path))
  }

  /** How `path_relative_to` prints a list of names. */
  function PathText(names: seq<Name>): string {
    "/" + Join(names)
  }

  predicate SlashFree(names: seq<Name>) {
    forall i :: 0 <= i < |names| ==> '/' !in names[i]
  }

  /** The lists of names that survive being printed and split again. */
  predicate Printable(names: seq<Name>) {
    SlashFree(names) && (names != [] ==> names[0] != "" && names[|names| - 1] != "")
  }

  lemma {:induction false} SplitIsSlashFree(text: string)
    ensures SlashFree(Split(text))
  {
    if text != "" {
      SplitIsSlashFree(text[1..]);
    }
  }

  lemma {:induction false} JoinAfterSplit(text: string)
    ensures Join(Split(text)) == text
  {
    if text != "" {
      JoinAfterSplit(text[1..]);
      var rest := Split(text[1..]);
      if text[0] == '/' {
        assert ([""] + rest)[1..] == rest;
      } else {
        assert ([[text[0]] + rest[0]] + rest[1..])[1..] == rest[1..];
      }
    }
  }

  lemma {:induction false} SplitName(name: Name, tail: string)
    requires '/' !in name
    ensures Split(name) == [name]
    ensures Split(name + "/" + tail) == [name] + Split(tail)
  {
    if name == "" {
      assert name + "/" + tail == "/" + tail;
      assert ("/" + tail)[1..] == tail;
    } else {
      SplitName(name[1..], tail);
      assert (name + "/" + tail)[1..] == name[1..] + "/" + tail;
      assert [name[0]] + name[1..] == name;
    }
  }

  lemma {:induction false} SplitAfterJoin(names: seq<Name>)
    requires names != [] && SlashFree(names)
    ensures Split(Join(names)) == names
  {
    SplitName(names[0], Join(names[1..]));
    if |names| > 1 {
      SplitAfterJoin(names[1..]);
    }
  }

  lemma {:induction false} JoinLast(names: seq<Name>, last: Name)
    requires names != []
    ensures Join(names + [last]) == Join(names) + "/" + last
    decreases |names|
  {
    var all := names + [last];
    if |names| == 1 {
      assert all[1..] == [last];
    } else {
      JoinLast(names[1..], last);
      assert all[1..] == names[1..] + [last];
    }
  }

  lemma {:induction false} SplitEnds(text: string)
    requires text != ""
    ensures Split(text)[0] == "" <==> text[0] == '/'
    ensures Split(text)[|Split(text)| - 1] == "" <==> text[|text| - 1] == '/'
  {
    if |text| > 1 {
      SplitEnds(text[1..]);
    } else {
      assert text[1..] == "";
    }
  }

  lemma {:induction false} TrimEdges(text: string)
    ensures Trim(text) != "" ==> Trim(text)[0] != '/' && Trim(text)[|Trim(text)| - 1] != '/'
  {
    TrimStartEdge(text);
    TrimEndEdge(TrimStart(text));
  }

  lemma {:induction false} TrimStartEdge(text: string)
    ensures TrimStart(text) != "" ==> TrimStart(text)[0] != '/'
  {
    if text != "" && text[0] == '/' {
      TrimStartEdge(text[1..]);
    }
  }

  lemma {:induction false} TrimEndEdge(text: string)
    ensures TrimEnd(text) <= text
    ensures TrimEnd(text) != "" ==> TrimEnd(text)[|TrimEnd(text)| - 1] != '/'
  {
    if text != "" && text[|text| - 1] == '/' {
      TrimEndEdge(text[..|text| - 1]);
    }
  }

  predicate AllSlashes(text: string) {
    forall i :: 0 <= i < |text| ==> text[i] == '/'
  }

  /** Trimming takes slashes off both ends, and nothing else. */
  lemma {:induction false} TrimTakesSlashes(text: string) returns (before: string, after: string)
    ensures text == before + Trim(text) + after && AllSlashes(before) && AllSlashes(after)
  {
    before := TrimStartTakes(text);
    after := TrimEndTakes(TrimStart(text));
  }

  lemma {:induction false} TrimStartTakes(text: string) returns (before: string)
    ensures text == before + TrimStart(text) && AllSlashes(before)
  {
    before := "";
    if text != "" && text[0] == '/' {
      before := TrimStartTakes(text[1..]);
      before := "/" + before;
    }
  }

  lemma {:induction false} TrimEndTakes(text: string) returns (after: string)
    ensures text == TrimEnd(text) + after && AllSlashes(after)
  {
    after := "";
    if text != "" && text[|text| - 1] == '/' {
      after := TrimEndTakes(text[..|text| - 1]);
      after := after + "/";
    }
  }

  /** Every path denotes a printable list of names. */
  lemma SegmentsArePrintable(path: string)
    ensures Printable(Segments(path))
    ensures Segments(path) != [] ==> Join(Segments(path)) == Trim(path)
  {
    var trimmed := Trim(path);
    TrimEdges(path);
    if trimmed != "" {
      SplitIsSlashFree(trimmed);
      SplitEnds(trimmed);
      JoinAfterSplit(trimmed);
    }
  }

  /** Printing names and reading them back is the identity exactly on printable names. */
  lemma PrintedNamesReadBack(names: seq<Name>)
    ensures Segments(PathText(names)) == names <==> Printable(names)
  {
    SegmentsArePrintable(PathText(names));
    if Printable(names) {
      var text := Join(names);
      if names == [] {
        assert TrimStart("/") == "";
      } else {
        SplitAfterJoin(names);
        assert text != "";
        SplitEnds(text);
        assert PathText(names)[1..] == text;
        assert TrimStart(PathText(names)) == text;
        assert TrimEnd(text) == text;
      }
    }
  }
}
