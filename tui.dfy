/** The key handling of the terminal client's main page: four widgets (the account,
    the password, the mileage gauge and the end time) in a vertical order, a normal
    mode that moves between them and an editing mode that edits the selected one. */
module Tui {

  import opened Wrappers

  datatype InputMode = Editing | Normal

  datatype Widget = Account | Password | Mileage | Time

  /** The key codes the handlers distinguish; any other key is `Other`. */
  datatype Key = Esc | Up | Down | Enter | Tab | Backspace | Left | Right | Char(c: char) | Other

  /** What Enter on the time widget hands back: account, password, mileage percentage
      and time. */
  datatype Submission = Submission(account: string, password: string, mileagePercent: nat, time: string)

  /** The fields of `Tui` the handlers read and write. */
  datatype Screen = Screen(account: string, cursor: nat, mode: InputMode, percent: nat,
                           password: string, time: string, selected: Widget)

  // u16 arithmetic on the cursor.

  const U16_LIMIT: nat := 0x1_0000

  /** `len as u16`: truncation to the low 16 bits. */
  function AsU16(n: nat): (r: nat)
    ensures r < U16_LIMIT && r <= n
    ensures n < U16_LIMIT ==> r == n
  {
    n % U16_LIMIT
  }

  /** `cursorpos += 1` as a release build performs it: wrap-around at 2^16. */
  function IncU16(n: nat): (r: nat)
    ensures r < U16_LIMIT
    ensures n + 1 < U16_LIMIT ==> r == n + 1
  {
    (n + 1) % U16_LIMIT
  }

  // The selection order.

  /** The position of a widget from the top. */
  function Rank(w: Widget): (r: nat)
    ensures r < 4
  {
    match w
    case Account => 0
    case Password => 1
    case Mileage => 2
    case Time => 3
  }

  /** `select(direction)`: one step along Account, Password, Mileage, Time; Up on the
      first widget, Down on the last and any other key stay put. */
  function Moved(w: Widget, direction: Key): Widget
  {
    match w
    case Account => if direction == Down then Password else Account
    case Password => if direction == Up then Account else if direction == Down then Mileage else Password
    case Mileage => if direction == Up then Password else if direction == Down then Time else Mileage
    case Time => if direction == Up then Mileage else Time
  }

  lemma {:induction false} RankInjective(v: Widget, w: Widget)
    ensures Rank(v) == Rank(w) ==> v == w
  {
  }

  /** Down adds one to the position up to the last widget, Up takes one off down to
      the first, and every other key keeps it. */
  lemma {:induction false} MovedIsLinear(w: Widget, direction: Key)
    ensures direction == Down ==> Rank(Moved(w, direction)) == if Rank(w) == 3 then 3 else Rank(w) + 1
    ensures direction == Up ==> Rank(Moved(w, direction)) == if Rank(w) == 0 then 0 else Rank(w) - 1
    ensures direction != Up && direction != Down ==> Moved(w, direction) == w
  {
  }

  /** Up undoes Down except on the last widget, and Down undoes Up except on the first. */
  lemma {:induction false} MovedRoundTrip(w: Widget)
    ensures w != Time ==> Moved(Moved(w, Down), Up) == w
    ensures w != Account ==> Moved(Moved(w, Up), Down) == w
  {
    MovedIsLinear(w, Down);
    MovedIsLinear(Moved(w, Down), Up);
    MovedIsLinear(w, Up);
    MovedIsLinear(Moved(w, Up), Down);
    RankInjective(Moved(Moved(w, Down), Up), w);
    RankInjective(Moved(Moved(w, Up), Down), w);
  }

  // The two handlers on the fields.

  /** The text the cursor moves in; the gauge has none. */
  function EditedText(s: Screen): string
  {
    match s.selected
    case Account => s.account
    case Password => s.password
    case Time => s.time
    case Mileage => []
  }

  function TextLength(s: Screen): nat
  {
    |EditedText(s)|
  }

  /** In editing mode the cursor never passes the end of the edited text. */
  predicate CursorWithin(s: Screen) {
    s.selected == Mileage || s.cursor <= TextLength(s)
  }

  /** What the handlers keep: a 16-bit cursor inside the edited text while editing, and
      a percentage between 0 and 100. */
  predicate Consistent(s: Screen) {
    s.cursor < U16_LIMIT && s.percent <= 100 && (s.mode == Editing ==> CursorWithin(s))
  }

  /** `handle_normal(key)`: the new fields, and whether the main loop ends. */
  function NormalStep(s: Screen, key: Key): (r: (Screen, bool))
    ensures r.0.account == s.account && r.0.password == s.password
    ensures r.0.time == s.time && r.0.percent == s.percent
    ensures r.0.mode == s.mode || r.0.mode == Editing
  {
    match key
    case Esc => (s, true)
    case Char('q') => (s, true)
    case Up => (s.(selected := Moved(s.selected, Up)), false)
    case Down => (s.(selected := Moved(s.selected, Down)), false)
    case Char('k') => (s.(selected := Moved(s.selected, Up)), false)
    case Char('j') => (s.(selected := Moved(s.selected, Down)), false)
    case Enter => (EnterEditing(s), false)
    case Char('i') => (EnterEditing(s), false)
    case Char('a') => (EnterEditing(s), false)
    case _ => (s, false)
  }

  /** Entering editing mode puts the cursor after the account or the password, and at
      the start for the gauge and the time. */
  function EnterEditing(s: Screen): (r: Screen)
    ensures r.mode == Editing && CursorWithin(r) && r.cursor < U16_LIMIT
    ensures r.selected == Account ==> r.cursor == AsU16(|s.account|)
    ensures r.selected == Password ==> r.cursor == AsU16(|s.password|)
    ensures r.selected == Mileage || r.selected == Time ==> r.cursor == 0
    ensures r == s.(mode := Editing, cursor := r.cursor)
  {
    var cursor := match s.selected
      case Account => AsU16(|s.account|)
      case Password => AsU16(|s.password|)
      case _ => 0;
    s.(mode := Editing, cursor := cursor)
  }

  /** The gauge moves by one percent, saturating at 0 and 100. */
  function Decreased(p: nat): nat { if p > 0 then p - 1 else p }
  function Increased(p: nat): nat { if p < 100 then p + 1 else p }

  /** `handle_editing(key)`: the new fields, and the submission Enter on the time
      widget returns. The Rust `insert` and `remove` panic outside the text, hence the
      requirement. */
  function EditingStep(s: Screen, key: Key): (r: (Screen, Option<Submission>))
    requires CursorWithin(s)
    ensures key == Esc || (key == Enter && s.selected == Time) ==> r.0.mode == Normal
    ensures key != Esc && !(key == Enter && s.selected == Time) ==> r.0.mode == s.mode
    ensures s.selected != Account ==> r.0.account == s.account
    ensures s.selected != Password ==> r.0.password == s.password
    ensures s.selected != Time ==> r.0.time == s.time
    ensures s.selected != Mileage ==> r.0.percent == s.percent
  {
    match key
    case Esc => (s.(mode := Normal), None)
    case Enter =>
      (match s.selected
       case Account => (s.(selected := Moved(s.selected, Down), cursor := AsU16(|s.password|)), None)
       case Password => (s.(selected := Moved(s.selected, Down)), None)
       case Mileage => (s.(selected := Moved(s.selected, Down), cursor := AsU16(|s.time|)), None)
       case Time => (s.(mode := Normal), Some(Submission(s.account, s.password, s.percent, s.time))))
    case Tab =>
      (match s.selected
       case Account => (s.(selected := Moved(s.selected, Down), cursor := AsU16(|s.password|)), None)
       case Password => (s.(selected := Moved(s.selected, Down)), None)
       case Time => (s.(selected := Moved(s.selected, Down)), None)
       case Mileage => (s, None))
    case Backspace =>
      (if s.cursor == 0 then (s, None)
       else match s.selected
         case Account => (s.(cursor := s.cursor - 1, account := s.account[..s.cursor - 1] + s.account[s.cursor..]), None)
         case Password => (s.(cursor := s.cursor - 1, password := s.password[..|s.password| - 1]), None)
         case Time => (s.(cursor := s.cursor - 1, time := s.time[..s.cursor - 1] + s.time[s.cursor..]), None)
         case Mileage => (s, None))
    case Char(c) =>
      (match s.selected
       case Account => (s.(account := s.account[..s.cursor] + [c] + s.account[s.cursor..], cursor := IncU16(s.cursor)), None)
       case Password => (s.(password := s.password[..s.cursor] + [c] + s.password[s.cursor..], cursor := IncU16(s.cursor)), None)
       case Time => (s.(time := s.time[..s.cursor] + [c] + s.time[s.cursor..], cursor := IncU16(s.cursor)), None)
       case Mileage =>
         if c == 'h' then (s.(percent := Decreased(s.percent)), None)
         else if c == 'l' then (s.(percent := Increased(s.percent)), None)
         else (s, None))
    case Left =>
      (if s.selected == Mileage then (s.(percent := Decreased(s.percent)), None)
       else if s.cursor > 0 then (s.(cursor := s.cursor - 1), None)
       else (s, None))
    case Right =>
      (if s.selected == Mileage then (s.(percent := Increased(s.percent)), None)
       else if s.cursor < AsU16(TextLength(s)) then (s.(cursor := s.cursor + 1), None)
       else (s, None))
    case _ => (s, None)
  }

  // What the handlers promise.

  /** Only Esc and 'q' end the loop in normal mode. */
  lemma {:induction false} NormalQuitKeys(s: Screen, key: Key)
    ensures NormalStep(s, key).1 <==> key == Esc || key == Char('q')
    ensures NormalStep(s, key).1 ==> NormalStep(s, key).0 == s
  {
  }

  /** Normal mode keeps the screen consistent. */
  lemma {:induction false} NormalConsistent(s: Screen, key: Key)
    requires Consistent(s) && s.mode == Normal
    ensures Consistent(NormalStep(s, key).0)
  {
    match key
    case Up =>
    case Down =>
    case _ =>
  }

  /** Editing mode keeps the screen consistent: the cursor stays inside the edited
      text and the gauge inside [0, 100]. */
  lemma {:induction false} EditingConsistent(s: Screen, key: Key)
    requires Consistent(s) && s.mode == Editing
    ensures Consistent(EditingStep(s, key).0)
  {
    var next := EditingStep(s, key).0;
    match key
    case Char(c) =>
      if s.selected == Account {
        assert |next.account| == |s.account| + 1;
      } else if s.selected == Password {
        assert |next.password| == |s.password| + 1;
      } else if s.selected == Time {
        assert |next.time| == |s.time| + 1;
      }
    case Backspace =>
      if s.cursor > 0 && s.selected == Account {
        assert |next.account| == |s.account| - 1;
      } else if s.cursor > 0 && s.selected == Time {
        assert |next.time| == |s.time| - 1;
      }
    case _ =>
  }

  /** Enter on the time widget, and nothing else, hands back the four fields and
      returns to normal mode. */
  lemma {:induction false} SubmitOnTime(s: Screen, key: Key)
    requires CursorWithin(s)
    ensures EditingStep(s, key).1.Some? <==> key == Enter && s.selected == Time
    ensures EditingStep(s, key).1.Some? ==>
      EditingStep(s, key).1.value == Submission(s.account, s.password, s.percent, s.time)
      && EditingStep(s, key).0 == s.(mode := Normal)
  {
  }

  /** On the gauge the arrows and 'h'/'l' move the percentage by one, saturating at
      the ends. */
  lemma {:induction false} GaugeSaturates(s: Screen, key: Key)
    requires s.selected == Mileage && s.percent <= 100
    ensures var p := EditingStep(s, key).0.percent;
      && p <= 100
      && (key == Left || key == Char('h') ==> p == if s.percent == 0 then 0 else s.percent - 1)
      && (key == Right || key == Char('l') ==> p == if s.percent == 100 then 100 else s.percent + 1)
      && (key != Left && key != Right && key != Char('h') && key != Char('l') ==> p == s.percent)
  {
  }

  /** A typed character goes in at the cursor of the selected text, which moves past
      it; the other texts and the rest of the screen are unchanged. */
  lemma {:induction false} TypedAtCursor(s: Screen, c: char)
    requires CursorWithin(s) && s.cursor + 1 < U16_LIMIT && s.selected != Mileage
    ensures var next := EditingStep(s, Char(c)).0;
      var before := EditedText(s);
      var after := EditedText(next);
      && next.selected == s.selected && next.mode == s.mode && next.percent == s.percent
      && |after| == |before| + 1
      && after[..s.cursor] == before[..s.cursor]
      && after[s.cursor] == c
      && after[s.cursor + 1..] == before[s.cursor..]
      && next.cursor == s.cursor + 1
      && (s.selected != Account ==> next.account == s.account)
      && (s.selected != Password ==> next.password == s.password)
      && (s.selected != Time ==> next.time == s.time)
  {
    var next := EditingStep(s, Char(c)).0;
    var before := EditedText(s);
    assert EditedText(next) == before[..s.cursor] + [c] + before[s.cursor..];
    assert EditedText(next)[s.cursor + 1..] == before[s.cursor..];
  }

  /** Backspace on the account and the time deletes the character before the cursor;
      on the password it deletes the last character wherever the cursor is. */
  lemma {:induction false} BackspaceDeletes(s: Screen)
    requires CursorWithin(s) && s.cursor > 0
    ensures s.selected == Account ==>
      EditingStep(s, Backspace).0.account == s.account[..s.cursor - 1] + s.account[s.cursor..]
    ensures s.selected == Password ==>
      EditingStep(s, Backspace).0.password == s.password[..|s.password| - 1]
      && EditingStep(s, Backspace).0.cursor == s.cursor - 1
    ensures s.selected == Time ==>
      EditingStep(s, Backspace).0.time == s.time[..s.cursor - 1] + s.time[s.cursor..]
    ensures s.selected != Mileage ==> EditingStep(s, Backspace).0.cursor == s.cursor - 1
  {
  }

  /** With the cursor between the two letters of the password "ab", Backspace deletes
      the 'b' after the cursor, not the 'a' before it. */
  lemma {:induction false} BackspaceIgnoresPasswordCursor()
    ensures var s := Screen([], 1, Editing, 100, ['a', 'b'], [], Password);
      EditingStep(s, Backspace).0.password == ['a'] && EditingStep(s, Backspace).0.cursor == 0
  {
  }

  /** Keys without an arm of their own change nothing. */
  lemma {:induction false} UnmatchedKeysInert(s: Screen, key: Key)
    requires CursorWithin(s)
    ensures key == Other ==> NormalStep(s, key) == (s, false) && EditingStep(s, key) == (s, None)
    ensures key == Tab || key == Backspace || key == Left || key == Right ==> NormalStep(s, key) == (s, false)
    ensures s.selected == Mileage && (key == Tab || key == Backspace) ==> EditingStep(s, key) == (s, None)
    ensures s.selected == Mileage && key.Char? && key.c != 'h' && key.c != 'l' ==> EditingStep(s, key) == (s, None)
    ensures key.Char? && key.c !in {'q', 'j', 'k', 'i', 'a'} ==> NormalStep(s, key) == (s, false)
    ensures key == Up || key == Down ==> EditingStep(s, key) == (s, None)
  {
  }

  /** The terminal client's main page. */
  class Tui {
    var account: string
    var cursorpos: nat
    var inputMode: InputMode
    var mileagePercent: nat
    var password: string
    var time: string
    var selected: Widget

    function Fields(): Screen
      reads this
    {
      Screen(account, cursorpos, inputMode, mileagePercent, password, time, selected)
    }

    /** `Tui::new`: normal mode on the account widget with a full gauge and the given
        local time. */
    constructor (now: string)
      ensures Fields() == Screen([], 0, Normal, 100, [], now, Account)
      ensures Consistent(Fields())
    {
      account, cursorpos, inputMode, mileagePercent := [], 0, Normal, 100;
      password, time, selected := [], now, Account;
    }

    method Select(direction: Key)
      modifies this`selected
      ensures selected == Moved(old(selected), direction)
    {
      match selected {
      case Account =>
        if direction == Down {
          selected := Password;
        }
      case Password =>
        if direction == Up {
          selected := Account;
        } else if direction == Down {
          selected := Mileage;
        }
      case Mileage =>
        if direction == Up {
          selected := Password;
        } else if direction == Down {
          selected := Time;
        }
      case Time =>
        if direction == Up {
          selected := Mileage;
        }
      }
    }

    /** `handle_normal(key)`; true asks the main loop to end. */
    method HandleNormal(key: Key) returns (quit: bool)
      modifies this
      ensures (Fields(), quit) == NormalStep(old(Fields()), key)
    {
      match key {
      case Esc =>
        return true;
      case Char('q') =>
        return true;
      case Up =>
        Select(Up);
      case Down =>
        Select(Down);
      case Char('k') =>
        Select(Up);
      case Char('j') =>
        Select(Down);
      case Enter =>
        StartEditing();
      case Char('i') =>
        StartEditing();
      case Char('a') =>
        StartEditing();
      case _ =>
      }
      return false;
    }

    method StartEditing()
      modifies this
      ensures Fields() == EnterEditing(old(Fields()))
    {
      inputMode := Editing;
      match selected {
      case Account =>
        cursorpos := AsU16(|account|);
      case Password =>
        cursorpos := AsU16(|password|);
      case _ =>
        cursorpos := 0;
      }
    }

    /** `handle_editing(key)`; a submission asks the main loop to return it. */
    method HandleEditing(key: Key) returns (r: Option<Submission>)
      requires CursorWithin(Fields())
      modifies this
      ensures (Fields(), r) == EditingStep(old(Fields()), key)
    {
      r := None;
      match key {
      case Esc =>
        inputMode := Normal;
      case Enter =>
        match selected {
        case Account =>
          Select(Down);
          cursorpos := AsU16(|password|);
        case Password =>
          Select(Down);
        case Mileage =>
          Select(Down);
          cursorpos := AsU16(|time|);
        case Time =>
          inputMode := Normal;
          r := Some(Submission(account, password, mileagePercent, time));
        }
      case Tab =>
        match selected {
        case Account =>
          Select(Down);
          cursorpos := AsU16(|password|);
        case Password =>
          Select(Down);
        case Time =>
          Select(Down);
        case Mileage =>
        }
      case Backspace =>
        if cursorpos > 0 {
          match selected {
          case Account =>
            cursorpos := cursorpos - 1;
            account := account[..cursorpos] + account[cursorpos + 1..];
          case Password =>
            cursorpos := cursorpos - 1;
            password := password[..|password| - 1];
          case Time =>
            cursorpos := cursorpos - 1;
            time := time[..cursorpos] + time[cursorpos + 1..];
          case Mileage =>
          }
        }
      case Char(c) =>
        match selected {
        case Account =>
          account := account[..cursorpos] + [c] + account[cursorpos..];
          cursorpos := IncU16(cursorpos);
        case Password =>
          password := password[..cursorpos] + [c] + password[cursorpos..];
          cursorpos := IncU16(cursorpos);
        case Time =>
          time := time[..cursorpos] + [c] + time[cursorpos..];
          cursorpos := IncU16(cursorpos);
        case Mileage =>
          if c == 'h' {
            if mileagePercent > 0 {
              mileagePercent := mileagePercent - 1;
            }
          } else if c == 'l' {
            if mileagePercent < 100 {
              mileagePercent := mileagePercent + 1;
            }
          }
        }
      case Left =>
        if selected == Mileage {
          if mileagePercent > 0 {
            mileagePercent := mileagePercent - 1;
          }
        } else if cursorpos > 0 {
          cursorpos := cursorpos - 1;
        }
      case Right =>
        if selected == Mileage {
          if mileagePercent < 100 {
            mileagePercent := mileagePercent + 1;
          }
        } else {
          var len := match selected
            case Account => |account|
            case Password => |password|
            case Time => |time|
            case Mileage => 0;
          if cursorpos < AsU16(len) {
            cursorpos := cursorpos + 1;
          }
        }
      case _ =>
      }
    }
  }
}
