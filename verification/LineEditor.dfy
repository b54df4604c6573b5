/** The raw-mode prompt with its history and completion menu, driven by keys: it refines an editor
    with the text left and right of its cursor. */
module LineEditor {
  import opened Option
  import opened Utf8
  import opened LineText

  // What the menu offers for a line that starts with a slash, and the trimming of a submitted
  // line; both stay fixed while a line is read.
  datatype Setting = Setting(menu: seq<Byte> -> seq<seq<Byte>>, trim: seq<Byte> -> seq<Byte>)

  ghost predicate ValidSetting(g: Setting) {
    && (forall s, i {:trigger g.menu(s)[i]} | 0 <= i < |g.menu(s)| :: Valid(g.menu(s)[i]))
    && (forall s {:trigger g.trim(s)} | Valid(s) :: Valid(g.trim(s)))
  }

  datatype Key =
    | Abort | Backspace | Delete | Tab | Up | Down | Left | Right | JumpBack | JumpOn
    | Home | End | Enter | CycleMode | Insert(c: Char)

  // ---------------------------------------------------------------- the two-sided editor

  datatype Editor = Editor(
    left: seq<Char>,
    right: seq<Char>,
    selected: nat,
    recalled: Option<nat>,
    draft: seq<Char>,
    history: seq<seq<Char>>)

  datatype Outcome = Editing(editor: Editor) | Submitted(text: seq<Char>, history: seq<seq<Char>>) | Aborted

  function Text(e: Editor): seq<Char> {
    e.left + e.right
  }

  // The completions on offer; none unless the line starts with a slash.
  function MenuFor(g: Setting, s: seq<Byte>): seq<seq<Byte>> {
    if SLASH <= s then g.menu(s) else []
  }

  function Menu(g: Setting, e: Editor): seq<seq<Byte>> {
    MenuFor(g, Encode(Text(e)))
  }

  // An entry with a placeholder is shown but cannot be taken.
  predicate Takes(command: seq<Byte>) {
    0x3C !in command && 0x5B !in command
  }

  function Completion(command: seq<Byte>): (s: seq<Byte>)
    requires Valid(command)
    ensures Valid(s)
  {
    ValidConcat(SLASH, command);
    ValidConcat(SLASH + command, SPACE);
    SLASH + command + SPACE
  }

  function AtEnd(e: Editor, text: seq<Char>): Editor {
    e.(left := text, right := [])
  }

  function At(e: Editor, p: nat): Editor
    requires p <= |Text(e)|
  {
    e.(left := Text(e)[..p], right := Text(e)[p..])
  }

  function Recall(e: Editor, i: nat): Editor
    requires i < |e.history|
  {
    AtEnd(e.(recalled := Some(i)), e.history[i])
  }

  // A recalled line exists; a selection past the first entry stands in an open menu.
  ghost predicate Inv(g: Setting, e: Editor) {
    && (e.recalled.Some? ==> e.recalled.value < |e.history|)
    && (e.selected > 0 ==> e.recalled.None? && e.selected < |Menu(g, e)|)
  }

  predicate InMenu(g: Setting, e: Editor) {
    Menu(g, e) != [] && e.recalled.None?
  }

  function PressUp(g: Setting, e: Editor): Editor
    requires Inv(g, e)
  {
    if InMenu(g, e) then e.(selected := if e.selected > 0 then e.selected - 1 else |Menu(g, e)| - 1)
    else if e.history == [] then e
    else if e.recalled.None? then Recall(e.(draft := Text(e)), |e.history| - 1)
    else Recall(e, if e.recalled.value > 0 then e.recalled.value - 1 else 0)
  }

  function PressDown(g: Setting, e: Editor): Editor
    requires Inv(g, e)
  {
    if InMenu(g, e) then e.(selected := if e.selected + 1 < |Menu(g, e)| then e.selected + 1 else 0)
    else if e.recalled.None? then e
    else if e.recalled.value + 1 < |e.history| then Recall(e, e.recalled.value + 1)
    else AtEnd(e.(recalled := None), e.draft)
  }

  function PressTab(g: Setting, e: Editor): Editor
    requires ValidSetting(g)
  {
    if e.selected < |Menu(g, e)| && Takes(Menu(g, e)[e.selected])
    then AtEnd(e.(selected := 0, recalled := None), Chars(Completion(Menu(g, e)[e.selected])))
    else e
  }

  // Enter takes the selected entry unless the line already spells it.
  predicate Completes(g: Setting, e: Editor)
    requires Inv(g, e)
  {
    && Menu(g, e) != []
    && var command := Menu(g, e)[e.selected];
       Takes(command) && Encode(Text(e)) != SLASH + command && !(SLASH + command + SPACE <= Encode(Text(e)))
  }

  function Remember(history: seq<seq<Char>>, trimmed: seq<Char>): seq<seq<Char>> {
    if trimmed != [] && (history == [] || history[|history| - 1] != trimmed) then history + [trimmed] else history
  }

  function PressEnter(g: Setting, e: Editor): Outcome
    requires ValidSetting(g) && Inv(g, e)
  {
    if Completes(g, e) then Editing(AtEnd(e.(selected := 0), Chars(Completion(Menu(g, e)[e.selected]))))
    else
      CharsOfEncode(Text(e));
      Submitted(Text(e), Remember(e.history, Chars(g.trim(Encode(Text(e))))))
  }

  function Edited(e: Editor, left: seq<Char>, right: seq<Char>): Editor {
    e.(left := left, right := right, selected := 0, recalled := None)
  }

  function PressEdit(e: Editor, key: Key): Editor {
    match key
    case Insert(c) => Edited(e, e.left + [c], e.right)
    case Backspace => Edited(e, if e.left == [] then [] else e.left[..|e.left| - 1], e.right)
    case Delete => Edited(e, e.left, if e.right == [] then [] else e.right[1..])
    case Left => if e.left == [] then e else At(e, |e.left| - 1)
    case Right => if e.right == [] then e else At(e, |e.left| + 1)
    case JumpBack => At(e, WordLeft(Text(e), |e.left|))
    case JumpOn => At(e, WordRight(Text(e), |e.left|))
    case Home => At(e, 0)
    case End => At(e, |Text(e)|)
    case _ => e
  }

  function Press(g: Setting, e: Editor, key: Key): Outcome
    requires ValidSetting(g) && Inv(g, e)
  {
    match key
    case Abort => Aborted
    case Tab => Editing(PressTab(g, e))
    case Up => Editing(PressUp(g, e))
    case Down => Editing(PressDown(g, e))
    case Enter => PressEnter(g, e)
    case _ => Editing(PressEdit(e, key))
  }

  /** Every key keeps the invariant, so Enter always finds its entry in the menu. */
  lemma {:induction false} PressKeepsInv(g: Setting, e: Editor, key: Key)
    requires ValidSetting(g) && Inv(g, e)
    ensures Press(g, e, key).Editing? ==> Inv(g, Press(g, e, key).editor)
  {
    hide ValidSetting, Completion, Takes, MenuFor, Encode;
    TextStays(e, key);
  }

  lemma {:induction false} TextStays(e: Editor, key: Key)
    ensures key.Left? || key.Right? || key.JumpBack? || key.JumpOn? || key.Home? || key.End? ==>
              Text(PressEdit(e, key)) == Text(e) && PressEdit(e, key) == At(e, |PressEdit(e, key).left|)
  {
  }

  /** What a read of keys leads to; input that ends early leaves the line unsubmitted. */
  function Read(g: Setting, e: Editor, keys: seq<Key>): Outcome
    requires ValidSetting(g) && Inv(g, e)
    decreases |keys|
  {
    if keys == [] then Editing(e)
    else
      PressKeepsInv(g, e, keys[0]);
      var next := Press(g, e, keys[0]);
      if next.Editing? then Read(g, next.editor, keys[1..]) else next
  }

  function Fresh(history: seq<seq<Char>>): Editor {
    Editor([], [], 0, None, [], history)
  }

  // Entries are not empty and no entry repeats the one before.
  ghost predicate Tidy(history: seq<seq<Char>>) {
    (forall i | 0 <= i < |history| :: history[i] != [])
    && forall i | 0 < i < |history| :: history[i] != history[i - 1]
  }

  /** For every key sequence: the invariant holds until the read ends, and the history changes
      only by at most the one entry a submission appends. */
  lemma {:induction false} ReadIsSound(g: Setting, e: Editor, keys: seq<Key>)
    requires ValidSetting(g) && Inv(g, e)
    ensures match Read(g, e, keys)
            case Editing(f) => Inv(g, f) && f.history == e.history
            case Submitted(_, h) => e.history <= h && |h| <= |e.history| + 1 && (Tidy(e.history) ==> Tidy(h))
            case Aborted => true
    decreases |keys|
  {
    hide ValidSetting, Inv, PressTab, PressUp, PressDown, PressEdit, Completes;
    if keys != [] {
      PressKeepsInv(g, e, keys[0]);
      PressKeepsHistory(g, e, keys[0]);
      var next := Press(g, e, keys[0]);
      if next.Editing? { ReadIsSound(g, next.editor, keys[1..]); }
    }
  }

  lemma {:induction false} PressKeepsHistory(g: Setting, e: Editor, key: Key)
    requires ValidSetting(g) && Inv(g, e)
    ensures Press(g, e, key).Editing? ==> Press(g, e, key).editor.history == e.history
  {
    hide ValidSetting, Menu, Takes, Completes;
  }

  /** A read starts sound, so from an empty line every key sequence keeps the history tidy. */
  lemma {:induction false} FreshReadIsSound(g: Setting, history: seq<seq<Char>>, keys: seq<Key>)
    requires ValidSetting(g) && Tidy(history)
    ensures Inv(g, Fresh(history))
    ensures var r := Read(g, Fresh(history), keys);
            (r.Editing? ==> Inv(g, r.editor)) && (r.Submitted? ==> Tidy(r.history))
  {
    ReadIsSound(g, Fresh(history), keys);
  }

  // ---------------------------------------------------------------- Up and Down

  function Ups(g: Setting, e: Editor, k: nat): (f: Editor)
    requires ValidSetting(g) && Inv(g, e)
    ensures Inv(g, f)
    decreases k
  {
    if k == 0 then e
    else
      PressKeepsInv(g, Ups(g, e, k - 1), Up);
      PressUp(g, Ups(g, e, k - 1))
  }

  function Downs(g: Setting, e: Editor, k: nat): (f: Editor)
    requires ValidSetting(g) && Inv(g, e)
    ensures Inv(g, f)
    decreases k
  {
    if k == 0 then e
    else
      PressKeepsInv(g, e, Down);
      Downs(g, PressDown(g, e), k - 1)
  }

  lemma {:induction false} UpsRecall(g: Setting, e: Editor, k: nat)
    requires ValidSetting(g) && Inv(g, e) && !InMenu(g, e) && e.recalled.None? && e.history != [] && k > 0
    ensures var n := |e.history|;
            Ups(g, e, k) == Recall(e.(draft := Text(e)), if k <= n then n - k else 0)
  {
    hide ValidSetting, Menu;
    if k > 1 {
      UpsRecall(g, e, k - 1);
    }
  }

  lemma {:induction false} DownsRestore(g: Setting, e: Editor, i: nat, k: nat)
    requires ValidSetting(g) && Inv(g, AtEnd(e.(recalled := None), e.draft)) && i < |e.history| && k >= |e.history| - i
    requires Inv(g, Recall(e, i)) && !InMenu(g, AtEnd(e.(recalled := None), e.draft))
    ensures Downs(g, Recall(e, i), k) == AtEnd(e.(recalled := None), e.draft)
    decreases k
  {
    hide ValidSetting, Menu, Text;
    if i + 1 < |e.history| {
      DownsRestore(g, e, i + 1, k - 1);
    } else {
      DownsStay(g, AtEnd(e.(recalled := None), e.draft), k - 1);
    }
  }

  lemma {:induction false} DownsStay(g: Setting, e: Editor, k: nat)
    requires ValidSetting(g) && Inv(g, e) && !InMenu(g, e) && e.recalled.None?
    ensures Downs(g, e, k) == e
  {
    hide ValidSetting, Menu;
    if k > 0 { DownsStay(g, e, k - 1); }
  }

  /** Outside the menu, k times Up and then k times Down bring the draft back, for every k, with
      the cursor at its end. */
  lemma {:induction false} UpsThenDownsRestoreDraft(g: Setting, e: Editor, k: nat)
    requires ValidSetting(g) && Inv(g, e) && !InMenu(g, e) && e.recalled.None?
    ensures Downs(g, Ups(g, e, k), k)
         == if k == 0 || e.history == [] then e else AtEnd(e.(draft := Text(e)), Text(e))
  {
    hide ValidSetting, MenuFor;
    if k == 0 {
    } else if e.history == [] {
      UpsStay(g, e, k);
      DownsStay(g, e, k);
    } else {
      UpsRecall(g, e, k);
      var d := e.(draft := Text(e));
      var back := AtEnd(d.(recalled := None), d.draft);
      assert Text(back) == Text(e);
      var n := |e.history|;
      DownsRestore(g, d, if k <= n then n - k else 0, k);
    }
  }

  lemma {:induction false} UpsStay(g: Setting, e: Editor, k: nat)
    requires ValidSetting(g) && Inv(g, e) && !InMenu(g, e) && e.history == []
    ensures Ups(g, e, k) == e
  {
    hide ValidSetting, Menu;
    if k > 0 { UpsStay(g, e, k - 1); }
  }

  /** In the menu, k times Up and then k times Down change nothing at all. */
  lemma {:induction false} UpsThenDownsInMenu(g: Setting, e: Editor, k: nat)
    requires ValidSetting(g) && Inv(g, e) && InMenu(g, e)
    ensures InMenu(g, Ups(g, e, k)) && Downs(g, Ups(g, e, k), k) == e
    decreases k
  {
    hide ValidSetting, Inv, MenuFor;
    if k > 0 {
      var f := Ups(g, e, k - 1);
      UpsThenDownsInMenu(g, e, k - 1);
      MenuDownUndoesUp(g, f);
      assert Text(PressUp(g, f)) == Text(f);
    }
  }

  /** In the menu, Down takes back Up and leaves everything as it was. */
  lemma {:induction false} MenuDownUndoesUp(g: Setting, e: Editor)
    requires ValidSetting(g) && Inv(g, e) && InMenu(g, e)
    ensures Inv(g, PressUp(g, e)) && PressDown(g, PressUp(g, e)) == e
    ensures Inv(g, PressDown(g, e)) && PressUp(g, PressDown(g, e)) == e
  {
    hide ValidSetting, MenuFor, Encode;
    assert Text(PressUp(g, e)) == Text(e) && Text(PressDown(g, e)) == Text(e);
  }

  // ---------------------------------------------------------------- the program

  function AllChars(lines: seq<seq<Byte>>): (r: seq<seq<Char>>)
    requires forall i | 0 <= i < |lines| :: Valid(lines[i])
    ensures |r| == |lines| && forall i | 0 <= i < |lines| :: r[i] == Chars(lines[i])
  {
    seq(|lines|, i requires 0 <= i < |lines| => Chars(lines[i]))
  }

  class Prompt {
    var line: seq<Byte>
    var cursor: nat                // counts characters
    var selected: nat
    var historyIdx: Option<nat>
    var savedLine: seq<Byte>
    var inputHistory: seq<seq<Byte>>

    ghost predicate Valid()
      reads this
    {
      && Utf8.Valid(line) && cursor <= |Chars(line)| && Utf8.Valid(savedLine)
      && (forall i | 0 <= i < |inputHistory| :: Utf8.Valid(inputHistory[i]))
    }

    ghost function Contents(): Editor
      reads this
      requires Valid()
    {
      Editor(Chars(line)[..cursor], Chars(line)[cursor..], selected, historyIdx, Chars(savedLine),
          AllChars(inputHistory))
    }

    constructor (history: seq<seq<Byte>>)
      requires forall i | 0 <= i < |history| :: Utf8.Valid(history[i])
      ensures Valid() && Contents() == Fresh(AllChars(history))
    {
      line, cursor, selected, historyIdx, savedLine, inputHistory := [], 0, 0, None, [], history;
    }

    method InsertChar(c: Char)
      requires Valid()
      modifies this
      ensures Valid() && Contents() == PressEdit(old(Contents()), Insert(c))
    {
      hide Utf8.Valid, Chars, Offset;
      InsertAtOffset(line, cursor, c);
      ghost var before := Chars(line);
      var at := Offset(line, cursor);
      line := line[..at] + c + line[at..];
      cursor := cursor + 1;
      selected, historyIdx := 0, None;
      assert Chars(line)[..cursor] == before[..cursor - 1] + [c];
      assert Chars(line)[cursor..] == before[cursor - 1..];
    }

    method EraseBack()
      requires Valid()
      modifies this
      ensures Valid() && Contents() == PressEdit(old(Contents()), Backspace)
    {
      hide Utf8.Valid, Chars, Offset;
      if cursor > 0 {
        DrainAtOffset(line, cursor - 1);
        ghost var before := Chars(line);
        var at := Offset(line, cursor - 1);
        line := line[..at] + [] + line[at + Width(line[at])..];
        cursor := cursor - 1;
        assert Chars(line)[..cursor] == before[..cursor + 1][..cursor];
        assert Chars(line)[cursor..] == before[cursor + 1..];
      }
      selected, historyIdx := 0, None;
    }

    method EraseForward()
      requires Valid()
      modifies this
      ensures Valid() && Contents() == PressEdit(old(Contents()), Delete)
    {
      hide Utf8.Valid, Chars, Offset;
      if cursor < |Chars(line)| {
        DrainAtOffset(line, cursor);
        ghost var before := Chars(line);
        var at := Offset(line, cursor);
        line := line[..at] + [] + line[at + Width(line[at])..];
        assert Chars(line)[..cursor] == before[..cursor];
        assert Chars(line)[cursor..] == before[cursor..][1..];
      }
      selected, historyIdx := 0, None;
    }

    method Move(key: Key)
      requires Valid() && (key.Left? || key.Right? || key.JumpBack? || key.JumpOn? || key.Home? || key.End?)
      modifies this`cursor
      ensures Valid() && Contents() == PressEdit(old(Contents()), key)
    {
      hide Utf8.Valid, Chars, WordLeft, WordRight;
      TextIsLine(this);
      var chars := Chars(line);
      match key {
        case Left => if cursor > 0 { cursor := cursor - 1; }
        case Right => if cursor < |chars| { cursor := cursor + 1; }
        case JumpBack => cursor := JumpLeft(chars, cursor);
        case JumpOn => cursor := JumpRight(chars, cursor);
        case Home => cursor := 0;
        case End => cursor := |chars|;
      }
    }

    method Replace(text: seq<Byte>)
      requires Valid() && Utf8.Valid(text)
      modifies this`line, this`cursor
      ensures Valid() && Contents() == AtEnd(old(Contents()), Chars(text))
    {
      hide Utf8.Valid, Chars;
      line := text;
      cursor := |Chars(text)|;
    }

    method ArrowUp(g: Setting)
      requires Valid() && Inv(g, Contents())
      modifies this
      ensures Valid() && Contents() == PressUp(g, old(Contents()))
    {
      hide Utf8.Valid, Chars, Encode;
      TextIsLine(this);
      var matching := MenuFor(g, line);
      if matching != [] && historyIdx.None? {
        selected := if selected > 0 then selected - 1 else |matching| - 1;
      } else if inputHistory != [] {
        if historyIdx.None? {
          savedLine := line;
          historyIdx := Some(|inputHistory| - 1);
        } else if historyIdx.value > 0 {
          historyIdx := Some(historyIdx.value - 1);
        }
        Replace(inputHistory[historyIdx.value]);
      }
    }

    method ArrowDown(g: Setting)
      requires Valid() && Inv(g, Contents())
      modifies this
      ensures Valid() && Contents() == PressDown(g, old(Contents()))
    {
      hide Utf8.Valid, Chars, Encode;
      TextIsLine(this);
      var matching := MenuFor(g, line);
      if matching != [] && historyIdx.None? {
        selected := if selected + 1 < |matching| then selected + 1 else 0;
      } else if historyIdx.Some? {
        var i := historyIdx.value;
        if i + 1 < |inputHistory| {
          historyIdx := Some(i + 1);
          Replace(inputHistory[i + 1]);
        } else {
          historyIdx := None;
          Replace(savedLine);
        }
      }
    }

    method Complete(g: Setting)
      requires ValidSetting(g) && Valid()
      modifies this
      ensures Valid() && Contents() == PressTab(g, old(Contents()))
    {
      hide Utf8.Valid, Chars, Encode, Completion, ValidSetting, MenuFor, Takes;
      TextIsLine(this);
      var matching := MenuFor(g, line);
      assert matching == Menu(g, Contents());
      if matching != [] && selected < |matching| {
        var command := matching[selected];
        if Takes(command) {
          EntryIsText(g, line, selected);
          selected, historyIdx := 0, None;
          Replace(Completion(command));
        }
      }
    }

    /** Appends a line to the history unless it is empty or repeats the last one. */
    method Store(trimmed: seq<Byte>)
      requires Valid() && Utf8.Valid(trimmed)
      modifies this`inputHistory
      ensures Valid()
      ensures Contents() == old(Contents()).(history := Remember(old(Contents()).history, Chars(trimmed)))
    {
      hide Utf8.Valid, Chars;
      SameCharsSameText(trimmed, inputHistory);
      if trimmed != [] && (inputHistory == [] || inputHistory[|inputHistory| - 1] != trimmed) {
        inputHistory := inputHistory + [trimmed];
      }
    }

    /** Enter: takes the selected entry, or submits the line. */
    method Submit(g: Setting) returns (submitted: Option<seq<Byte>>)
      requires ValidSetting(g) && Valid() && Inv(g, Contents())
      modifies this
      ensures Valid()
      ensures submitted.None? ==> PressEnter(g, old(Contents())) == Editing(Contents())
      ensures submitted.Some? ==>
                Utf8.Valid(submitted.value)
                && PressEnter(g, old(Contents())) == Submitted(Chars(submitted.value), Contents().history)
    {
      hide Utf8.Valid, Chars, Encode, Completion, ValidSetting, MenuFor, Takes;
      TextIsLine(this);
      var matching := MenuFor(g, line);
      assert matching == Menu(g, Contents());
      if matching != [] {
        var command := matching[selected];
        EntryIsText(g, line, selected);
        if Takes(command) && line != SLASH + command && !(SLASH + command + SPACE <= line) {
          selected := 0;
          Replace(Completion(command));
          return None;
        }
      }
      TrimIsText(g, line);
      Store(g.trim(line));
      return Some(line);
    }

    /** Reads keys until the line is submitted or the read is aborted. */
    method ReadLine(g: Setting, keys: seq<Key>) returns (submitted: Option<seq<Byte>>, open: bool)
      requires ValidSetting(g) && Valid() && Inv(g, Contents())
      modifies this
      ensures Valid()
      ensures match Read(g, old(Contents()), keys)
              case Editing(e) => open && submitted == None && Contents() == e
              case Submitted(text, history) =>
                !open && submitted.Some? && Utf8.Valid(submitted.value) && Chars(submitted.value) == text
                && Contents().history == history
              case Aborted => !open && submitted == None
    {
      hide Utf8.Valid, Chars, Encode, Inv, ValidSetting, PressUp, PressDown,
           PressTab, PressEnter, PressEdit;
      for k := 0 to |keys|
        invariant Valid() && Inv(g, Contents())
        invariant Read(g, old(Contents()), keys) == Read(g, Contents(), keys[k..])
      {
        assert keys[k..][0] == keys[k] && keys[k..][1..] == keys[k + 1..];
        PressKeepsInv(g, Contents(), keys[k]);
        match keys[k] {
          case Abort => return None, false;
          case Tab => Complete(g);
          case Up => ArrowUp(g);
          case Down => ArrowDown(g);
          case Enter =>
            submitted := Submit(g);
            if submitted.Some? { return submitted, false; }
          case Insert(c) => InsertChar(c);
          case Backspace => EraseBack();
          case Delete => EraseForward();
          case CycleMode => StaysPut(Contents());
          case _ => Move(keys[k]);
        }
      }
      return None, true;
    }
  }

  lemma {:induction false} TextIsLine(p: Prompt)
    requires p.Valid()
    ensures Text(p.Contents()) == Chars(p.line) && Encode(Text(p.Contents())) == p.line
  {
    EncodeOfChars(p.line);
    assert Chars(p.line)[..p.cursor] + Chars(p.line)[p.cursor..] == Chars(p.line);
  }

  lemma {:induction false} EntryIsText(g: Setting, s: seq<Byte>, i: nat)
    requires ValidSetting(g) && i < |MenuFor(g, s)|
    ensures Valid(MenuFor(g, s)[i])
  {
  }

  lemma {:induction false} TrimIsText(g: Setting, s: seq<Byte>)
    requires ValidSetting(g) && Valid(s)
    ensures Valid(g.trim(s))
  {
  }

  lemma {:induction false} StaysPut(e: Editor)
    ensures PressEdit(e, CycleMode) == e
  {
  }

  lemma {:induction false} SameCharsSameText(trimmed: seq<Byte>, history: seq<seq<Byte>>)
    requires Valid(trimmed) && forall i | 0 <= i < |history| :: Valid(history[i])
    ensures Chars(trimmed) == [] <==> trimmed == []
    ensures forall i | 0 <= i < |history| :: Chars(history[i]) == Chars(trimmed) <==> history[i] == trimmed
  {
    hide Valid, Chars, Encode;
    NoChars();
    EncodeOfChars(trimmed);
    EncodeOfChars([]);
    forall i | 0 <= i < |history| ensures Chars(history[i]) == Chars(trimmed) <==> history[i] == trimmed {
      EncodeOfChars(history[i]);
    }
  }
}
