/** What typing does, spelled out on texts: each key by the text left and right of the cursor, and
    whole reads by what they submit. */
module TypedLine {
  import opened Option
  import opened Utf8
  import opened LineText
  import opened LineEditor

  /** The keys that look left of the cursor. An edit leaves the history alone, closes a recalled
      line and sends the selection back to the first entry; a move changes neither. */
  lemma {:induction false} KeysToTheLeft(g: Setting, e: Editor, c: Char)
    requires ValidSetting(g) && Inv(g, e)
    ensures Press(g, e, Insert(c)) == Editing(Editor(e.left + [c], e.right, 0, None, e.draft, e.history))
    ensures e.left != [] ==>
              var l, x := e.left[..|e.left| - 1], e.left[|e.left| - 1];
              && Press(g, e, Backspace) == Editing(Editor(l, e.right, 0, None, e.draft, e.history))
              && Press(g, e, Left) == Editing(e.(left := l, right := [x] + e.right))
    ensures e.left == [] ==>
              && Press(g, e, Backspace) == Editing(Editor([], e.right, 0, None, e.draft, e.history))
              && Press(g, e, Left) == Editing(e)
    ensures Press(g, e, Home) == Editing(e.(left := [], right := e.left + e.right))
    ensures Press(g, e, CycleMode) == Editing(e) && Press(g, e, Abort) == Aborted
  {
    hide ValidSetting, Inv;
    var text := e.left + e.right;
    assert text[..0] == [] && text[0..] == text;
    if e.left != [] {
      var l, x := e.left[..|e.left| - 1], e.left[|e.left| - 1];
      assert text[..|l|] == l && text[|l|..] == [x] + e.right;
    }
  }

  /** And those that look right of it. */
  lemma {:induction false} KeysToTheRight(g: Setting, e: Editor)
    requires ValidSetting(g) && Inv(g, e)
    ensures e.right != [] ==>
              var x, r := e.right[0], e.right[1..];
              && Press(g, e, Delete) == Editing(Editor(e.left, r, 0, None, e.draft, e.history))
              && Press(g, e, Right) == Editing(e.(left := e.left + [x], right := r))
    ensures e.right == [] ==>
              && Press(g, e, Delete) == Editing(Editor(e.left, [], 0, None, e.draft, e.history))
              && Press(g, e, Right) == Editing(e)
    ensures Press(g, e, End) == Editing(e.(left := e.left + e.right, right := []))
  {
    hide ValidSetting, Inv;
    var text := e.left + e.right;
    assert text[..|text|] == text && text[|text|..] == [];
    if e.right != [] {
      var x, r := e.right[0], e.right[1..];
      assert text[..|e.left| + 1] == e.left + [x] && text[|e.left| + 1..] == r;
    }
  }

  /** The word jump to the left goes back over spaces and the word before them, each as far as it
      goes. */
  lemma {:induction false} JumpsBack(g: Setting, e: Editor) returns (p: nat, q: nat)
    requires ValidSetting(g) && Inv(g, e)
    ensures p <= q <= |e.left|
    ensures (forall k | q <= k < |e.left| :: e.left[k] == [0x20]) && (q > 0 ==> e.left[q - 1] != [0x20])
    ensures (forall k | p <= k < q :: e.left[k] != [0x20]) && (p > 0 ==> e.left[p - 1] == [0x20])
    ensures Press(g, e, JumpBack) == Editing(e.(left := e.left[..p], right := e.left[p..] + e.right))
  {
    hide ValidSetting, Inv;
    var text, n := e.left + e.right, |e.left|;
    q := BackOverSpaces(text, n);
    p := BackOverWord(text, q);
    forall k | 0 <= k < n ensures text[k] == e.left[k] {
    }
    assert text[..p] == e.left[..p] && text[p..] == e.left[p..] + e.right;
  }

  /** The one to the right goes over the rest of the word and the spaces after it. */
  lemma {:induction false} JumpsOn(g: Setting, e: Editor) returns (p: nat, q: nat)
    requires ValidSetting(g) && Inv(g, e)
    ensures p <= q <= |e.right|
    ensures (forall k | 0 <= k < p :: e.right[k] != [0x20]) && (p < |e.right| ==> e.right[p] == [0x20])
    ensures (forall k | p <= k < q :: e.right[k] == [0x20]) && (q < |e.right| ==> e.right[q] != [0x20])
    ensures Press(g, e, JumpOn) == Editing(e.(left := e.left + e.right[..q], right := e.right[q..]))
  {
    var text, n := e.left + e.right, |e.left|;
    p := SkipWord(text, n) - n;
    q := SkipSpaces(text, n + p) - n;
    SkipsInRight(e.left, e.right, p, q);
    hide ValidSetting, Inv, SkipWord, SkipSpaces;
    assert text[..n + q] == e.left + e.right[..q] && text[n + q..] == e.right[q..];
  }

  lemma {:induction false} SkipsInRight(left: seq<Char>, right: seq<Char>, p: nat, q: nat)
    requires var text, n := left + right, |left|;
             SkipWord(text, n) == n + p && SkipSpaces(text, n + p) == n + q
    ensures p <= q <= |right|
    ensures (forall k | 0 <= k < p :: right[k] != SPACE) && (p < |right| ==> right[p] == SPACE)
    ensures (forall k | p <= k < q :: right[k] == SPACE) && (q < |right| ==> right[q] != SPACE)
  {
    var text, n := left + right, |left|;
    forall k | 0 <= k < p ensures right[k] != SPACE {
      assert text[n + k] == right[k];
    }
    forall k | p <= k < q ensures right[k] == SPACE {
      assert text[n + k] == right[k];
    }
  }

  // The entries on offer for the line.
  ghost predicate Offers(g: Setting, e: Editor, entries: seq<seq<Byte>>) {
    var line := Encode(e.left + e.right);
    entries != [] && [0x2F] <= line && g.menu(line) == entries
  }

  /** Up and Down in the menu go round its entries. */
  lemma {:induction false} ArrowsInMenu(g: Setting, e: Editor, entries: seq<seq<Byte>>)
    requires ValidSetting(g) && Inv(g, e) && Offers(g, e, entries) && e.recalled == None
    ensures e.selected < |entries|
    ensures Press(g, e, Up) == Editing(e.(selected := if e.selected == 0 then |entries| - 1 else e.selected - 1))
    ensures Press(g, e, Down) == Editing(e.(selected := if e.selected == |entries| - 1 then 0 else e.selected + 1))
  {
    hide ValidSetting, Encode;
  }

  /** Tab, and Enter on a line that does not spell it yet, take the selected entry, unless it has a
      placeholder: the line becomes a slash, the entry and a space. Tab also leaves the history. */
  lemma {:induction false} TakingAnEntry(g: Setting, e: Editor, entries: seq<seq<Byte>>)
    requires ValidSetting(g) && Inv(g, e) && Offers(g, e, entries)
    ensures e.selected < |entries| && Valid([0x2F] + entries[e.selected] + [0x20])
    ensures var line, entry := Encode(e.left + e.right), entries[e.selected];
            var taken := Chars([0x2F] + entry + [0x20]);
            var takes := 0x3C !in entry && 0x5B !in entry;
            && Press(g, e, Tab)
               == Editing(if takes then Editor(taken, [], 0, None, e.draft, e.history) else e)
            && (Press(g, e, Enter).Editing?
                <==> takes && line != [0x2F] + entry && !([0x2F] + entry + [0x20] <= line))
            && (Press(g, e, Enter).Editing? ==>
                  Press(g, e, Enter) == Editing(Editor(taken, [], 0, e.recalled, e.draft, e.history)))
            && (!Press(g, e, Enter).Editing? ==>
                  Press(g, e, Enter).Submitted? && Press(g, e, Enter).text == e.left + e.right)
  {
    hide Encode;
    var entry := entries[e.selected];
    assert Valid(Completion(entry)) && Completion(entry) == [0x2F] + entry + [0x20];
  }

  /** Tab without an entry on offer does nothing. */
  lemma {:induction false} NothingToTake(g: Setting, e: Editor)
    requires ValidSetting(g) && Inv(g, e)
    requires !([0x2F] <= Encode(e.left + e.right)) || g.menu(Encode(e.left + e.right)) == []
    ensures Press(g, e, Tab) == Editing(e)
  {
    hide Encode;
  }

  /** Up and Down outside the menu walk the history: from the line being typed, which is saved, to
      the last entry and back to the first; from the last entry down to the line saved. */
  lemma {:induction false} ArrowsInHistory(g: Setting, e: Editor)
    requires ValidSetting(g) && Inv(g, e)
    requires e.recalled == None ==> !([0x2F] <= Encode(e.left + e.right)) || g.menu(Encode(e.left + e.right)) == []
    ensures var n := |e.history|;
            Press(g, e, Up)
            == if n == 0 then Editing(e)
               else match e.recalled
                 case None =>
                   Editing(Editor(e.history[n - 1], [], e.selected, Some(n - 1), e.left + e.right, e.history))
                 case Some(0) => Editing(Editor(e.history[0], [], e.selected, Some(0), e.draft, e.history))
                 case Some(i) => Editing(Editor(e.history[i - 1], [], e.selected, Some(i - 1), e.draft, e.history))
    ensures var n := |e.history|;
            Press(g, e, Down)
            == match e.recalled
               case None => Editing(e)
               case Some(i) =>
                 if i + 1 == n then Editing(Editor(e.draft, [], e.selected, None, e.draft, e.history))
                 else Editing(Editor(e.history[i + 1], [], e.selected, Some(i + 1), e.draft, e.history))
  {
    hide ValidSetting, Encode;
  }

  // ---------------------------------------------------------------- whole reads

  function Inserts(cs: seq<Char>): (keys: seq<Key>)
    ensures |keys| == |cs| && forall i | 0 <= i < |cs| :: keys[i] == Insert(cs[i])
  {
    seq(|cs|, i requires 0 <= i < |cs| => Insert(cs[i]))
  }

  /** Characters typed one after the other stand left of the cursor in that order. */
  lemma {:induction false} TypingInserts(g: Setting, e: Editor, cs: seq<Char>, keys: seq<Key>)
    requires ValidSetting(g) && Inv(g, e) && cs != []
    ensures var typed := Editor(e.left + cs, e.right, 0, None, e.draft, e.history);
            Inv(g, typed) && Read(g, e, Inserts(cs) + keys) == Read(g, typed, keys)
    decreases |cs|
  {
    hide ValidSetting;
    var one := Editor(e.left + [cs[0]], e.right, 0, None, e.draft, e.history);
    PressKeepsInv(g, e, Insert(cs[0]));
    var all := Inserts(cs) + keys;
    assert all[0] == Insert(cs[0]) && all[1..] == Inserts(cs[1..]) + keys;
    assert Press(g, e, all[0]) == Editing(one);
    assert Read(g, e, all) == Read(g, one, all[1..]);
    if |cs| > 1 {
      TypingInserts(g, one, cs[1..], keys);
      assert (e.left + [cs[0]]) + cs[1..] == e.left + cs;
    } else {
      assert cs == [cs[0]] && all[1..] == keys;
    }
  }

  /** Typing a text at a fresh prompt and pressing Enter submits that text, unless the menu has
      entries for it; what trimming leaves of it becomes the last of the history, if it is not
      empty and not there already. */
  lemma {:induction false} TypedTextIsSubmitted(g: Setting, history: seq<seq<Char>>, cs: seq<Char>)
    requires ValidSetting(g) && (!([0x2F] <= Encode(cs)) || g.menu(Encode(cs)) == [])
    ensures Inv(g, Fresh(history)) && Valid(Encode(cs)) && Valid(g.trim(Encode(cs)))
    ensures var trimmed := Chars(g.trim(Encode(cs)));
            Read(g, Fresh(history), Inserts(cs) + [Enter])
            == Submitted(cs, if trimmed == [] || (history != [] && history[|history| - 1] == trimmed) then history
                             else history + [trimmed])
  {
    assert MenuFor(g, Encode(cs)) == [];
    hide ValidSetting, Inserts, MenuFor, Encode, Chars;
    var e := Editor([], [], 0, None, [], history);
    var typed := Editor([] + cs, [], 0, None, [], history);
    if cs == [] {
      assert Inserts(cs) + [Enter] == [Enter];
    } else {
      TypingInserts(g, e, cs, [Enter]);
    }
    assert Text(typed) == cs && [Enter][0] == Enter;
    CharsOfEncode(cs);
    TrimIsText(g, Encode(cs));
    assert Read(g, typed, [Enter]) == Press(g, typed, Enter);
  }
}
