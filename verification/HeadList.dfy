/** Lists of heads: `left`, `right` or `both`, in any letter case, among commas and spaces. */
module HeadList {
  import opened Common
  import opened Texts

  predicate Separator(c: char) {
    c == ',' || c == ' '
  }

  /** How many separators a text begins with. */
  function Gap(text: Text): (r: nat)
    ensures r <= |text| && (forall i :: 0 <= i < r ==> Separator(text[i]))
    ensures r < |text| ==> !Separator(text[r])
  {
    if text != "" && Separator(text[0]) then 1 + Gap(text[1..]) else 0
  }

  function SkipSeparators(text: Text): (r: Text)
    ensures |r| <= |text|
  {
    text[Gap(text)..]
  }

  function Left(): Text { "left" }
  function Right(): Text { "right" }
  function Both(): Text { "both" }

  datatype Named = Named(length: nat, left: bool, right: bool)

  /** The head or heads a text begins by naming; of no length when it names none. */
  function NameAt(text: Text): (r: Named)
    ensures r.length <= |text|
  {
    if StartsWith(text, Left()) then Named(4, true, false)
    else if StartsWith(text, Right()) then Named(5, false, true)
    else if StartsWith(text, Both()) then Named(4, true, true)
    else Named(0, false, false)
  }

  /** The heads named in a list, on top of those named before it. */
  function ReadHeads(text: Text, left: bool, right: bool): Option<(bool, bool)>
    decreases |text|
  {
    if text == "" then Some((left, right))
    else
      var rest := SkipSeparators(text);
      var name := NameAt(rest);
      if name.length > 0 then ReadHeads(rest[name.length..], left || name.left, right || name.right)
      else if rest != "" then None
      else Some((left, right))
  }

  function ParseHeads(text: Text): Option<(bool, bool)> {
    match ReadHeads(text, false, false)
    case Some((false, false)) => None
    case r => r
  }

  method ReadHeadList(text: Text) returns (r: Option<(bool, bool)>)
    ensures r == ParseHeads(text)
  {
    hide StartsWith, SkipSeparators, ReadHeads, Left, Right, Both;
    var left, right := false, false;
    var cursor := 0;
    assert text[0..] == text;
    while cursor < |text|
      invariant cursor <= |text|
      invariant ReadHeads(text, false, false) == ReadHeads(text[cursor..], left, right)
    {
      ghost var from := text[cursor..];
      cursor := PastSeparators(text, cursor);
      var rest := text[cursor..];
      ReadsNext(from, rest, left, right);
      ReadsNothing(left, right);
      assert |rest| >= 4 ==> rest[4..] == text[cursor + 4..];
      assert |rest| >= 5 ==> rest[5..] == text[cursor + 5..];
      if StartsWith(rest, Left()) {
        left, cursor := true, cursor + 4;
      } else if StartsWith(rest, Right()) {
        right, cursor := true, cursor + 5;
      } else if StartsWith(rest, Both()) {
        left, right, cursor := true, true, cursor + 4;
      } else if cursor < |text| {
        return None;
      }
    }
    assert text[cursor..] == "";
    ReadsNothing(left, right);
    return if left || right then Some((left, right)) else None;
  }

  lemma ReadsNothing(left: bool, right: bool)
    ensures ReadHeads("", left, right) == Some((left, right))
  {
  }

  lemma ReadsNext(text: Text, rest: Text, left: bool, right: bool)
    requires text != "" && rest == SkipSeparators(text)
    ensures var name := NameAt(rest);
            ReadHeads(text, left, right)
            == if name.length > 0 then ReadHeads(rest[name.length..], left || name.left, right || name.right)
               else if rest != "" then None
               else Some((left, right))
  {
  }

  method PastSeparators(text: Text, from: nat) returns (cursor: nat)
    requires from <= |text|
    ensures from <= cursor <= |text| && text[cursor..] == SkipSeparators(text[from..])
  {
    cursor := from;
    while cursor < |text| && Separator(text[cursor])
      invariant from <= cursor <= |text|
      invariant forall i :: from <= i < cursor ==> Separator(text[i])
    {
      cursor := cursor + 1;
    }
    ghost var rest := text[from..];
    assert cursor < |text| ==> rest[cursor - from] == text[cursor];
    assert Gap(rest) < |rest| ==> rest[Gap(rest)] == text[from + Gap(rest)];
    assert Gap(rest) == cursor - from;
  }

  // --- what a list of heads is ---

  /** A name of one head or of both, after any number of separators. */
  datatype Item = Item(gap: Text, word: Text)

  predicate Separators(text: Text) {
    forall i :: 0 <= i < |text| ==> text[i] == ',' || text[i] == ' '
  }

  predicate IsItem(item: Item) {
    Separators(item.gap) && (Same(item.word, Left()) || Same(item.word, Right()) || Same(item.word, Both()))
  }

  function Spelled(items: seq<Item>, tail: Text): Text {
    if items == [] then tail else items[0].gap + items[0].word + Spelled(items[1..], tail)
  }

  predicate Names(items: seq<Item>, head: Text) {
    exists i :: 0 <= i < |items| && (Same(items[i].word, head) || Same(items[i].word, Both()))
  }

  lemma SkipsGap(gap: Text, rest: Text)
    requires Separators(gap) && (rest == "" || !Separator(rest[0]))
    ensures SkipSeparators(gap + rest) == rest
  {
    assert forall i :: 0 <= i < |gap| ==> (gap + rest)[i] == gap[i];
    assert rest != "" ==> (gap + rest)[|gap|] == rest[0];
    assert Gap(gap + rest) == |gap|;
  }

  lemma NameThenMore(word: Text, more: Text)
    requires IsItem(Item("", word))
    ensures word != "" && !Separator(word[0])
    ensures NameAt(word + more) == Named(|word|, !Same(word, Right()), !Same(word, Left()))
  {
    assert LowerCase(word[0]) in {'l', 'r', 'b'};
    assert LowerCase((word + more)[0]) == LowerCase(word[0]);
    assert Left()[0] == 'l' && Right()[0] == 'r' && Both()[0] == 'b';
    assert Same(word, Left()) ==> StartsWith(word + more, Left());
    assert Same(word, Right()) ==> StartsWith(word + more, Right());
    assert Same(word, Both()) ==> StartsWith(word + more, Both());
  }

  /** A list spelled out names the heads its items name. */
  lemma {:induction false} SpelledReads(items: seq<Item>, tail: Text, left: bool, right: bool)
    requires Separators(tail) && forall i :: 0 <= i < |items| ==> IsItem(items[i])
    ensures ReadHeads(Spelled(items, tail), left, right)
         == Some((left || Names(items, Left()), right || Names(items, Right())))
    decreases |items|
  {
    if items == [] {
      SkipsGap(tail, "");
      assert tail + "" == tail;
    } else {
      var item := items[0];
      ReadsItem(item, Spelled(items[1..], tail), left, right);
      OneNamed(items, Left());
      OneNamed(items, Right());
      SpelledReads(items[1..], tail, left || !Same(item.word, Right()), right || !Same(item.word, Left()));
      hide Names, Same, ReadHeads, Left, Right;
    }
  }

  lemma ReadsItem(item: Item, more: Text, left: bool, right: bool)
    requires IsItem(item)
    ensures ReadHeads(item.gap + item.word + more, left, right)
         == ReadHeads(more, left || !Same(item.word, Right()), right || !Same(item.word, Left()))
  {
    var rest := item.word + more;
    NameThenMore(item.word, more);
    SkipsGap(item.gap, rest);
    assert item.gap + item.word + more == item.gap + rest;
    assert rest[|item.word|..] == more;
    ReadsNext(item.gap + rest, rest, left, right);
    hide Same, NameAt, SkipSeparators, ReadHeads;
  }

  lemma OneNamed(items: seq<Item>, head: Text)
    requires items != [] && IsItem(items[0]) && (head == Left() || head == Right())
    ensures Names(items, head)
            <==> !Same(items[0].word, if head == Left() then Right() else Left()) || Names(items[1..], head)
  {
    assert forall i :: 1 <= i < |items| ==> items[i] == items[1..][i - 1];
    assert Left()[0] == 'l' && Right()[0] == 'r' && Both()[0] == 'b';
  }

  /** Every list that reads is one that is spelled out. */
  lemma {:induction false} ReadsSpelled(text: Text, left: bool, right: bool) returns (items: seq<Item>, tail: Text)
    requires ReadHeads(text, left, right).Some?
    ensures text == Spelled(items, tail) && Separators(tail) && forall i :: 0 <= i < |items| ==> IsItem(items[i])
    decreases |text|
  {
    hide SkipSeparators, NameAt, ReadHeads, Same, StartsWith;
    var rest := SkipSeparators(text);
    var name := NameAt(rest);
    SkipSplits(text);
    if text != "" {
      ReadsNext(text, rest, left, right);
    }
    if text != "" && name.length > 0 {
      var item := Item(text[..|text| - |rest|], rest[..name.length]);
      NamedItem(rest);
      assert rest == item.word + rest[name.length..];
      var more, end := ReadsSpelled(rest[name.length..], left || name.left, right || name.right);
      items, tail := [item] + more, end;
      assert items[1..] == more;
    } else {
      items, tail := [], text;
      assert text[..|text|] == text;
    }
  }

  lemma SkipSplits(text: Text)
    ensures var rest := SkipSeparators(text);
            text == text[..|text| - |rest|] + rest && Separators(text[..|text| - |rest|])
  {
  }

  lemma NamedItem(text: Text)
    requires NameAt(text).length > 0
    ensures IsItem(Item("", text[..NameAt(text).length]))
  {
  }

  /** A list of heads is accepted exactly when it is names between separators, at least one of them,
      and then it means the heads they name. */
  lemma HeadListIff(text: Text, left: bool, right: bool)
    ensures ParseHeads(text) == Some((left, right)) <==>
            (left || right)
            && exists items, tail ::
                 && text == Spelled(items, tail) && Separators(tail)
                 && (forall i :: 0 <= i < |items| ==> IsItem(items[i]))
                 && left == Names(items, Left()) && right == Names(items, Right())
  {
    if ParseHeads(text) == Some((left, right)) {
      var items, tail := ReadsSpelled(text, false, false);
      SpelledReads(items, tail, false, false);
    }
    forall items, tail | text == Spelled(items, tail) && Separators(tail)
                         && forall i :: 0 <= i < |items| ==> IsItem(items[i])
      ensures ReadHeads(text, false, false) == Some((Names(items, Left()), Names(items, Right())))
    {
      SpelledReads(items, tail, false, false);
    }
  }

  lemma BothReads()
    ensures ParseHeads("both") == Some((true, true))
  {
    Starts(Both(), "");
    var b := Item("", Both());
    assert IsItem(b) && Both()[0] == 'b' && Left()[0] == 'l' && Right()[0] == 'r';
    assert !Same(Both(), Left()) && !Same(Both(), Right());
    assert "" + Both() + "" == "both";
    hide IsItem, Same, ReadHeads;
    ReadsNothing(true, true);
    ReadsItem(b, "", false, false);
  }

  lemma HeadListsRead()
    ensures ParseHeads("left,right") == Some((true, true))
    ensures ParseHeads(Left()) == Some((true, false))
    ensures ParseHeads(Right()) == Some((false, true))
  {
    Starts(Left(), "");
    Starts(Right(), "");
    assert Same(Left(), Left()) && Same(Right(), Right()) && !Same(Left(), Right()) && !Same(Right(), Left());
    var l, r, second := Item("", Left()), Item("", Right()), Item(",", Right());
    assert IsItem(l) && IsItem(r) && IsItem(second);
    assert "" + Left() + "" == "left" && "" + Right() + "" == "right";
    assert "" + Left() + ",right" == "left,right" && "," + Right() + "" == ",right";
    hide IsItem, Same, ReadHeads;
    ReadsNothing(true, false);
    ReadsNothing(false, true);
    ReadsNothing(true, true);
    ReadsItem(l, "", false, false);
    ReadsItem(r, "", false, false);
    ReadsItem(l, ",right", false, false);
    ReadsItem(second, "", true, false);
  }
}
