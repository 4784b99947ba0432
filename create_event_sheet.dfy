/**
 * The decisions inside `CreateEventBottomSheet`: the time fields with their
 * wrap-around hour and minute pickers, the category chips and their
 * colours, and the create button, which builds an event only for a title
 * that is not blank.
 */
module CreateEventSheet {
  import opened Wrappers
  import opened Chrono
  import opened KotlinInt
  import opened Domain

  /** The hour picker's up arrow: `(h + 1) % 24`. */
  function HourUp(h: int): (r: int)
    ensures 0 <= h < 24 ==> 0 <= r < 24 && r == (if h == 23 then 0 else h + 1)
  {
    Rem(h + 1, 24)
  }

  /** The hour picker's down arrow: `(h - 1 + 24) % 24`. */
  function HourDown(h: int): (r: int)
    ensures 0 <= h < 24 ==> 0 <= r < 24 && r == (if h == 0 then 23 else h - 1)
  {
    Rem(h - 1 + 24, 24)
  }

  /** The minute values the pickers reach from 0: the quarter hours. */
  predicate Quarter(m: int) {
    0 <= m < 60 && m % 15 == 0
  }

  /** The minute picker's up arrow: `(m + 15) % 60`. */
  function MinuteUp(m: int): (r: int)
    ensures Quarter(m) ==> Quarter(r) && r == (if m == 45 then 0 else m + 15)
  {
    Rem(m + 15, 60)
  }

  /** The minute picker's down arrow: `(m - 15 + 60) % 60`. */
  function MinuteDown(m: int): (r: int)
    ensures Quarter(m) ==> Quarter(r) && r == (if m == 0 then 45 else m - 15)
  {
    Rem(m - 15 + 60, 60)
  }

  /** Each hour arrow undoes the other. */
  lemma HourArrowsInverse(h: int)
    requires 0 <= h < 24
    ensures HourDown(HourUp(h)) == h && HourUp(HourDown(h)) == h
  {
    assert 0 <= HourUp(h) < 24 && 0 <= HourDown(h) < 24;
  }

  /** Each minute arrow undoes the other on the quarter hours. */
  lemma MinuteArrowsInverse(m: int)
    requires Quarter(m)
    ensures MinuteDown(MinuteUp(m)) == m && MinuteUp(MinuteDown(m)) == m
  {
    assert Quarter(MinuteUp(m)) && Quarter(MinuteDown(m));
  }

  /** Four quarter-hour steps up come back to the same minute. */
  lemma FourQuartersAround(m: int)
    requires Quarter(m)
    ensures MinuteUp(MinuteUp(MinuteUp(MinuteUp(m)))) == m
  {
    var m1 := MinuteUp(m);
    var m2 := MinuteUp(m1);
    var m3 := MinuteUp(m2);
    assert Quarter(m1) && Quarter(m2) && Quarter(m3);
  }

  /** `steps` presses of hour up add `steps` modulo 24, so every twenty-four presses come back to the start. */
  lemma {:induction false} HoursAround(h: int, steps: nat)
    requires 0 <= h < 24
    ensures HourSteps(h, steps) == (h + steps) % 24
  {
    if steps > 0 {
      HoursAround(h, steps - 1);
      NextHourMod(h + steps - 1);
    }
  }

  /** One more hour modulo 24 is the up arrow applied to the hour modulo 24. */
  lemma NextHourMod(x: nat)
    ensures (x + 1) % 24 == if x % 24 == 23 then 0 else x % 24 + 1
  {
    var q, p := x / 24, x % 24;
    assert x == 24 * q + p;
    if p == 23 {
      assert x + 1 == 24 * (q + 1);
    } else {
      assert x + 1 == 24 * q + (p + 1);
    }
  }

  /** The hour after `steps` presses of the up arrow. */
  function HourSteps(h: int, steps: nat): int {
    if steps == 0 then h else HourUp(HourSteps(h, steps - 1))
  }

  /**
   * A `TimeField`: `hour` and `minute` are the form's value it shows and
   * changes through `onChange`; `h` and `m` are the dialog's own copy,
   * remembered from the value when the dialog opens.
   */
  class TimeField {
    var hour: int
    var minute: int
    var showDialog: bool
    var h: int
    var m: int

    ghost predicate Valid()
      reads this
    {
      0 <= hour < 24 && Quarter(minute) && (showDialog ==> 0 <= h < 24 && Quarter(m))
    }

    constructor (hour: int, minute: int)
      requires 0 <= hour < 24 && Quarter(minute)
      ensures Valid() && this.hour == hour && this.minute == minute && !showDialog
    {
      this.hour := hour;
      this.minute := minute;
      showDialog := false;
      h, m := hour, minute;
    }

    /** Clicking the field opens the dialog; a dialog that was closed starts again from the field's value. */
    method Open()
      requires Valid()
      modifies this
      ensures Valid() && showDialog
      ensures hour == old(hour) && minute == old(minute)
      ensures !old(showDialog) ==> h == hour && m == minute
      ensures old(showDialog) ==> h == old(h) && m == old(m)
    {
      if !showDialog {
        h, m := hour, minute;
      }
      showDialog := true;
    }

    /** The hour picker's up arrow, inside the open dialog. */
    method HourUpPressed()
      requires Valid() && showDialog
      modifies this
      ensures Valid() && showDialog
      ensures h == HourUp(old(h)) && m == old(m) && hour == old(hour) && minute == old(minute)
    {
      h := Rem(h + 1, 24);
    }

    /** The hour picker's down arrow, inside the open dialog. */
    method HourDownPressed()
      requires Valid() && showDialog
      modifies this
      ensures Valid() && showDialog
      ensures h == HourDown(old(h)) && m == old(m) && hour == old(hour) && minute == old(minute)
    {
      h := Rem(h - 1 + 24, 24);
    }

    /** The minute picker's up arrow, inside the open dialog. */
    method MinuteUpPressed()
      requires Valid() && showDialog
      modifies this
      ensures Valid() && showDialog
      ensures m == MinuteUp(old(m)) && h == old(h) && hour == old(hour) && minute == old(minute)
    {
      m := Rem(m + 15, 60);
    }

    /** The minute picker's down arrow, inside the open dialog. */
    method MinuteDownPressed()
      requires Valid() && showDialog
      modifies this
      ensures Valid() && showDialog
      ensures m == MinuteDown(old(m)) && h == old(h) && hour == old(hour) && minute == old(minute)
    {
      m := Rem(m - 15 + 60, 60);
    }

    /** OK: the dialog's hour and minute become the field's value and the dialog closes. */
    method Confirm()
      requires Valid() && showDialog
      modifies this
      ensures Valid() && !showDialog
      ensures hour == old(h) && minute == old(m)
    {
      hour, minute := h, m;
      showDialog := false;
    }

    /** Cancel, or dismissing the dialog: it closes and the field keeps its value. */
    method Cancel()
      requires Valid()
      modifies this
      ensures Valid() && !showDialog
      ensures hour == old(hour) && minute == old(minute)
    {
      showDialog := false;
    }
  }

  /** The three category chips. */
  datatype Category = Brainstorm | Design | Workout

  /** The colour a chip's click selects, as the `Int` its `toInt()` gives. */
  function CategoryColor(c: Category): (color: int)
    ensures MinInt <= color <= MaxInt
  {
    match c
    case Brainstorm => ToInt(0xFF735BF2)
    case Design => ToInt(0xFF4CAF50)
    case Workout => ToInt(0xFF2196F3)
  }

  /** The three colours are the stated ARGB values and tell the categories apart. */
  lemma CategoryColors()
    ensures CategoryColor(Brainstorm) == 0xFF735BF2 - TwoTo32
    ensures CategoryColor(Design) == 0xFF4CAF50 - TwoTo32
    ensures CategoryColor(Workout) == 0xFF2196F3 - TwoTo32
    ensures forall a: Category, b: Category :: CategoryColor(a) == CategoryColor(b) ==> a == b
  {
  }

  /** `Char.isWhitespace()`: the Java whitespace characters and the Unicode space separators. */
  predicate IsWhitespace(c: char) {
    c == '\t' || c == '\n' || c == '\U{000B}' || c == '\U{000C}' || c == '\r' ||
    ('\U{001C}' <= c <= '\U{001F}') ||
    c == ' ' || c == '\U{00A0}' || c == '\U{1680}' || ('\U{2000}' <= c <= '\U{200A}') ||
    c == '\U{2028}' || c == '\U{2029}' || c == '\U{202F}' || c == '\U{205F}' || c == '\U{3000}'
  }

  /** `isBlank()`: empty or whitespace only. */
  predicate IsBlank(s: string) {
    forall i | 0 <= i < |s| :: IsWhitespace(s[i])
  }

  /**
   * The create button's click: an event on the selected date with the
   * pickers' times and the category's colour, and the default id, or
   * nothing for a blank title.
   */
  function BuildEvent(title: string, description: string, startHour: int, startMinute: int,
                      endHour: int, endMinute: int, color: int, selectedDate: Date): (r: Option<Event>)
    requires 0 <= startHour < 24 && 0 <= startMinute < 60 && 0 <= endHour < 24 && 0 <= endMinute < 60
    ensures r.Some? <==> !IsBlank(title)
    ensures r.Some? ==> r.value.id == UnsavedId && r.value.title == title && r.value.description == description
    ensures r.Some? ==> r.value.date == selectedDate && r.value.color == color
    ensures r.Some? ==> ValidTime(r.value.startTime) && ValidTime(r.value.endTime)
    ensures r.Some? ==> r.value.startTime.hour == startHour && r.value.startTime.minute == startMinute &&
                        r.value.endTime.hour == endHour && r.value.endTime.minute == endMinute
    ensures r.Some? ==> r.value.startTime == LocalTime(startHour, startMinute) &&
                        r.value.endTime == LocalTime(endHour, endMinute)
  {
    if IsBlank(title) then None
    else Some(Event(
      title := title,
      description := description,
      startTime := LocalTime(startHour, startMinute),
      endTime := LocalTime(endHour, endMinute),
      date := selectedDate,
      color := color))
  }

  /** Nothing compares the two times: an event ending an hour before it starts is built all the same. */
  lemma EndBeforeStartAccepted(selectedDate: Date)
    ensures var r := BuildEvent("Standup", "", 11, 0, 10, 0, CategoryColor(Brainstorm), selectedDate);
            r.Some? && r.value.endTime.hour < r.value.startTime.hour
  {
    assert "Standup"[0] == 'S' && !IsWhitespace('S');
  }

  /** The remembered state of the sheet. */
  class CreateEventForm {
    var title: string
    var description: string
    var selectedCategory: Category
    var selectedColor: int
    var remindMe: bool
    const start: TimeField
    const end: TimeField

    ghost predicate Valid()
      reads this, start, end
    {
      start.Valid() && end.Valid() && selectedColor == CategoryColor(selectedCategory)
    }

    /** A fresh sheet: empty texts, Brainstorm, 10:00 to 11:00, no reminder. */
    constructor ()
      ensures Valid() && fresh(start) && fresh(end)
      ensures title == "" && description == "" && !remindMe
      ensures selectedCategory == Brainstorm && selectedColor == ToInt(0xFF735BF2)
      ensures start.hour == 10 && start.minute == 0 && end.hour == 11 && end.minute == 0
    {
      title := "";
      description := "";
      selectedCategory := Brainstorm;
      selectedColor := ToInt(0xFF735BF2);
      remindMe := false;
      start := new TimeField(10, 0);
      end := new TimeField(11, 0);
    }

    /** Typing into the name field. */
    method OnTitleChange(text: string)
      requires Valid()
      modifies this
      ensures Valid() && title == text && description == old(description)
      ensures selectedCategory == old(selectedCategory) && remindMe == old(remindMe)
    {
      title := text;
    }

    /** Typing into the note field. */
    method OnDescriptionChange(text: string)
      requires Valid()
      modifies this
      ensures Valid() && description == text && title == old(title)
      ensures selectedCategory == old(selectedCategory) && remindMe == old(remindMe)
    {
      description := text;
    }

    /** A chip's click: the category and its colour together. */
    method OnCategoryClick(c: Category)
      requires Valid()
      modifies this
      ensures Valid() && selectedCategory == c
      ensures title == old(title) && description == old(description) && remindMe == old(remindMe)
    {
      selectedCategory := c;
      selectedColor := CategoryColor(c);
    }

    /** The reminder switch, which nothing else reads. */
    method OnRemindMeChange(checked: bool)
      requires Valid()
      modifies this
      ensures Valid() && remindMe == checked
      ensures title == old(title) && description == old(description) && selectedCategory == old(selectedCategory)
    {
      remindMe := checked;
    }

    /** The create button: the event to hand to `onCreateEvent`, or none while the title is blank. */
    method Create(selectedDate: Date) returns (r: Option<Event>)
      requires Valid()
      ensures r.Some? <==> !IsBlank(title)
      ensures r == BuildEvent(title, description, start.hour, start.minute, end.hour, end.minute,
                              CategoryColor(selectedCategory), selectedDate)
    {
      if IsBlank(title) {
        r := None;
      } else {
        r := Some(Event(
          title := title,
          description := description,
          startTime := LocalTime(start.hour, start.minute),
          endTime := LocalTime(end.hour, end.minute),
          date := selectedDate,
          color := selectedColor));
      }
    }
  }
}
