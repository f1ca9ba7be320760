/**
 * The class-list page parser of the gym crawler: parseTimeText turns "DIM 10:00"
 * into the next date with that weekday and time, and every row's status is chosen
 * by a fixed precedence among the words of its action cell.
 */
module GymClasses {
  import opened Wrappers
  import opened Strings

  /** dayMap: French day abbreviations to Date.getDay() numbers, 0 being Sunday. */
  const DayMap: map<string, int> :=
    map["DIM" := 0, "LUN" := 1, "MAR" := 2, "MER" := 3, "JEU" := 4, "VEN" := 5, "SAM" := 6]

  /** The result of `Number(piece)`, and `undefined` for a piece the destructuring does not find. */
  datatype JsNumber = Num(value: nat) | NotDecimal | Missing

  predicate AllDigits(s: string)
  {
    forall k :: 0 <= k < |s| ==> '0' <= s[k] <= '9'
  }

  /** `Number(s)` for a string of decimal digits; "" gives 0. */
  function NumberOf(s: string): JsNumber
  {
    if AllDigits(s) then Num(DigitsValue(s)) else NotDecimal
  }

  /** `timePart.split(':').map(Number)` read as `[hours, minutes]`. */
  function HoursMinutes(timePart: string): (JsNumber, JsNumber)
  {
    var pieces := Split(timePart, ':');
    (NumberOf(pieces[0]), if |pieces| >= 2 then NumberOf(pieces[1]) else Missing)
  }

  /**
   * The days from today to the next `targetDay` (today itself included); the
   * reassignment `daysToAdd += 7` when the day has passed this week.
   */
  function DaysToAdd(targetDay: int, currentDay: int): (d: int)
    requires 0 <= targetDay <= 6 && 0 <= currentDay <= 6
    ensures 0 <= d <= 6
    ensures (currentDay + d) % 7 == targetDay
  {
    var d := targetDay - currentDay;
    if d < 0 then d + 7 else d
  }

  /**
   * The names `dayMap[dayAbbr]` also finds on a plain object literal: the
   * properties every object inherits from Object.prototype. For these the lookup
   * is not `undefined`, so the fallback is skipped.
   */
  const InheritedKeys: set<string> := {
    "constructor", "hasOwnProperty", "isPrototypeOf", "propertyIsEnumerable",
    "toLocaleString", "toString", "valueOf", "__proto__",
    "__defineGetter__", "__defineSetter__", "__lookupGetter__", "__lookupSetter__"}

  /**
   * The Date parseTimeText returns: `new Date()` itself, an Invalid Date, or today
   * moved forward with its clock set.
   */
  datatype ClassTime =
    | Now
    | InvalidDate
    | Scheduled(daysToAdd: int, hours: JsNumber, minutes: JsNumber, seconds: int, milliseconds: int)

  /**
   * parseTimeText, with `now.getDay()` given as `currentDay`. An inherited
   * property is a function or an object, `targetDay - currentDay` is then NaN, and
   * `setDate(NaN)` makes the date invalid.
   */
  function ParseTimeText(timeText: string, currentDay: int): ClassTime
    requires 0 <= currentDay <= 6
  {
    var parts := Split(timeText, ' ');
    if |parts| < 2 then Now
    else
      var time := HoursMinutes(parts[1]);
      if parts[0] in DayMap then Scheduled(DaysToAdd(DayMap[parts[0]], currentDay), time.0, time.1, 0, 0)
      else if parts[0] in InheritedKeys then InvalidDate
      else Now
  }

  /**
   * Text without a space, or starting with a word that is neither a day nor an
   * inherited property, gives the current time; an inherited property gives an
   * Invalid Date.
   */
  lemma ParseTimeTextFallbacks(timeText: string, currentDay: int)
    requires 0 <= currentDay <= 6
    ensures ' ' !in timeText ==> ParseTimeText(timeText, currentDay) == Now
    ensures ParseTimeText(timeText, currentDay) == Now <==> (|Split(timeText, ' ')| < 2
      || (Split(timeText, ' ')[0] !in DayMap && Split(timeText, ' ')[0] !in InheritedKeys))
    ensures ParseTimeText(timeText, currentDay) == InvalidDate <==>
      (|Split(timeText, ' ')| >= 2 && Split(timeText, ' ')[0] in InheritedKeys)
  {
    FirstPiece(timeText, ' ');
    KeysApart();
  }

  /** No day abbreviation is an inherited property name: the former have three letters, the latter at least seven. */
  lemma KeysApart()
    ensures forall k :: k in DayMap ==> |k| == 3
    ensures forall k :: k in InheritedKeys ==> |k| >= 7
  {
    DayKeysShort();
    InheritedKeysLong();
  }

  lemma DayKeysShort()
    ensures forall k :: k in DayMap ==> |k| == 3
  {
    assert DayMap.Keys == {"DIM", "LUN", "MAR", "MER", "JEU", "VEN", "SAM"};
  }

  lemma InheritedKeysLong()
    ensures forall k :: k in InheritedKeys ==> |k| >= 7
  {
    forall k | k in InheritedKeys
      ensures |k| >= 7
    {
      if k == "constructor" || k == "hasOwnProperty" || k == "isPrototypeOf" || k == "propertyIsEnumerable" {
      } else if k == "toLocaleString" || k == "toString" || k == "valueOf" || k == "__proto__" {
      } else {
        assert k in {"__defineGetter__", "__defineSetter__", "__lookupGetter__", "__lookupSetter__"};
      }
    }
  }

  /** "toString 10:00" finds Object.prototype.toString, not a day, and gives an Invalid Date. */
  lemma InheritedKeyInvalid(currentDay: int)
    requires 0 <= currentDay <= 6
    ensures ParseTimeText("toString 10:00", currentDay) == InvalidDate
  {
    var text := "toString 10:00";
    assert text[..8] == "toString" && text[9..] == "10:00";
    assert text[8] == ' ';
    assert ' ' !in text[..8];
    assert ' ' !in text[9..];
    SplitOnce(text, ' ', 8);
    KeysApart();
    assert "toString" in InheritedKeys;
  }

  /**
   * A scheduled class falls on the weekday its text names, at most six days ahead,
   * at the hour and minute of the text with zero seconds and milliseconds.
   */
  lemma ParseTimeTextScheduled(timeText: string, currentDay: int)
    requires 0 <= currentDay <= 6
    requires ParseTimeText(timeText, currentDay).Scheduled?
    ensures var parts := Split(timeText, ' ');
      var t := ParseTimeText(timeText, currentDay);
      |parts| >= 2 && parts[0] in DayMap
      && 0 <= t.daysToAdd <= 6 && (currentDay + t.daysToAdd) % 7 == DayMap[parts[0]]
      && (t.hours, t.minutes) == HoursMinutes(parts[1]) && t.seconds == 0 && t.milliseconds == 0
  {
  }

  /** A class on today's weekday is dated today, not next week. */
  lemma SameDayIsToday(day: int)
    requires 0 <= day <= 6
    ensures DaysToAdd(day, day) == 0
  {
  }

  /** On a Wednesday, "DIM 10:00" is the coming Sunday (four days ahead) at 10:00. */
  lemma SundayFromWednesday()
    ensures ParseTimeText("DIM 10:00", 3) == Scheduled(4, Num(10), Num(0), 0, 0)
  {
    var parts := Split("DIM 10:00", ' ');
    SundayTenSplit();
    assert parts[0] == "DIM" && parts[1] == "10:00";
    assert "DIM" in DayMap && DayMap["DIM"] == 0;
    TenOClock();
    assert DaysToAdd(0, 3) == 4;
  }

  lemma SundayTenSplit()
    ensures Split("DIM 10:00", ' ') == ["DIM", "10:00"]
  {
    var text := "DIM 10:00";
    assert text[..3] == "DIM" && text[4..] == "10:00";
    assert text[3] == ' ';
    assert ' ' !in text[..3];
    assert ' ' !in text[4..];
    SplitOnce(text, ' ', 3);
  }

  lemma TenOClock()
    ensures HoursMinutes("10:00") == (Num(10), Num(0))
  {
    var time := "10:00";
    assert time[..2] == "10" && time[3..] == "00";
    assert time[2] == ':';
    assert ':' !in time[..2];
    assert ':' !in time[3..];
    SplitOnce(time, ':', 2);
    assert DigitsValue("1") == 1 by { assert "1"[..0] == []; }
    assert DigitsValue("10") == 10 by { assert "10"[..1] == "1"; }
    assert DigitsValue("0") == 0 by { assert "0"[..0] == []; }
    assert DigitsValue("00") == 0 by { assert "00"[..1] == "0"; }
  }

  datatype Status = Passed | Full | Cancelled | Available

  /** The status cascade: PASSÉ, then COMPLET, then ANNULÉ, else AVAILABLE. */
  function StatusOf(actionText: string): Status
  {
    if Contains(actionText, "PASS\U{C9}") then Passed
    else if Contains(actionText, "COMPLET") then Full
    else if Contains(actionText, "ANNUL\U{C9}") then Cancelled
    else Available
  }

  /** Each status in terms of the words the action text holds. */
  lemma StatusPrecedence(actionText: string)
    ensures var passed, full, cancelled :=
        exists i: nat :: OccursAt(actionText, "PASS\U{C9}", i),
        exists i: nat :: OccursAt(actionText, "COMPLET", i),
        exists i: nat :: OccursAt(actionText, "ANNUL\U{C9}", i);
      && (StatusOf(actionText) == Passed <==> passed)
      && (StatusOf(actionText) == Full <==> !passed && full)
      && (StatusOf(actionText) == Cancelled <==> !passed && !full && cancelled)
      && (StatusOf(actionText) == Available <==> !passed && !full && !cancelled)
  {
    ContainsOccurs(actionText, "PASS\U{C9}");
    ContainsOccurs(actionText, "COMPLET");
    ContainsOccurs(actionText, "ANNUL\U{C9}");
  }

  /** A row of the schedule table, as cheerio extracts and trims its texts. */
  datatype Row = Row(
    link: string,
    timeText: string,
    location: string,
    activityAlt: Option<string>,
    activitySrc: Option<string>,
    teacher: string,
    actionText: string)

  datatype Activity = Activity(name: string, icon: string)

  datatype GymClass = GymClass(timestamp: ClassTime, location: string, activity: Activity, teacher: string, status: Status, link: string)

  /** `attr(...) || ''`: a missing or empty attribute gives "". */
  function OrEmpty(attr: Option<string>): string
  {
    if attr.Some? then attr.value else ""
  }

  /** The object pushed for one row. */
  function ClassOf(row: Row, currentDay: int): GymClass
    requires 0 <= currentDay <= 6
  {
    GymClass(ParseTimeText(row.timeText, currentDay), row.location,
      Activity(OrEmpty(row.activityAlt), OrEmpty(row.activitySrc)), row.teacher, StatusOf(row.actionText), row.link)
  }

  method ParsePage(rows: seq<Row>, currentDay: int) returns (classes: seq<GymClass>)
    requires 0 <= currentDay <= 6
    ensures |classes| == |rows|
    ensures forall i :: 0 <= i < |rows| ==> classes[i] == ClassOf(rows[i], currentDay)
  {
    classes := [];
    for i := 0 to |rows|
      invariant |classes| == i
      invariant forall k :: 0 <= k < i ==> classes[k] == ClassOf(rows[k], currentDay)
    {
      var row := rows[i];
      var status := Available;
      if Contains(row.actionText, "PASS\U{C9}") {
        status := Passed;
      } else if Contains(row.actionText, "COMPLET") {
        status := Full;
      } else if Contains(row.actionText, "ANNUL\U{C9}") {
        status := Cancelled;
      }
      var timestamp := ParseTimeText(row.timeText, currentDay);
      classes := classes + [GymClass(timestamp, row.location,
        Activity(OrEmpty(row.activityAlt), OrEmpty(row.activitySrc)), row.teacher, status, row.link)];
    }
  }
}
