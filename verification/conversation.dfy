/** The spoken greeting for a recognized user. The role table, the set of
    (lower-case) names already seen today and the last-visit clock times are
    inputs; the call returns the message and the updated visit set. */
module Conversation {
  import opened Landmarks
  import opened Text
  import opened Roles

  const GesturePrompt := "Let me know how I can help, just show me a hand gesture."
  /** What every greeting ends with. */
  const Closing := " " + GesturePrompt
  const NiceToSeeYou := " It's nice to see you today. I hope you're feeling well."

  datatype ClockTime = ClockTime(hour: int, minute: int)

  /** The hour and minute of a `datetime`. */
  type Clock = c: ClockTime | 0 <= c.hour < 24 && 0 <= c.minute < 60 witness ClockTime(0, 0)

  /** Part of the day named for an hour. */
  function Period(hour: int): (p: string)
    ensures p == "morning" <==> 5 <= hour < 12
    ensures p == "afternoon" <==> 12 <= hour < 18
    ensures p == "evening" <==> !(5 <= hour < 18)
  {
    if 5 <= hour < 12 then "morning"
    else if 12 <= hour < 18 then "afternoon"
    else "evening"
  }

  function Digit(n: int): (c: char)
    requires 0 <= n < 10
    ensures '0' <= c <= '9'
  {
    ('0' as int + n) as char
  }

  function DigitValue(c: char): int
  {
    c as int - '0' as int
  }

  function TwoDigits(n: int): (s: string)
    requires 0 <= n < 100
    ensures |s| == 2 && '0' <= s[0] <= '9' && '0' <= s[1] <= '9'
    ensures 10 * DigitValue(s[0]) + DigitValue(s[1]) == n
  {
    [Digit(n / 10), Digit(n % 10)]
  }

  /** `%I`: the hour on the 12-hour clock. */
  function Hour12(hour: int): (h: int)
    requires 0 <= hour < 24
    ensures 1 <= h <= 12
    ensures h % 12 == hour % 12
  {
    if hour % 12 == 0 then 12 else hour % 12
  }

  /** `strftime("%I:%M %p")` in the C locale. */
  function Strftime(c: Clock): (s: string)
  {
    TwoDigits(Hour12(c.hour)) + ClockTail(c.minute, c.hour >= 12)
  }

  /** `:%M %p`: colon, two minute digits, a space and "AM" or "PM". */
  function ClockTail(minute: int, pm: bool): (s: string)
    requires 0 <= minute < 60
  {
    ":" + TwoDigits(minute) + " " + (if pm then "PM" else "AM")
  }

  /** `lstrip("0")`. */
  function LStripZeros(s: string): (r: string)
    ensures |r| <= |s| && r == s[|s| - |r|..]
    ensures forall i :: 0 <= i < |s| - |r| ==> s[i] == '0'
    ensures |r| > 0 ==> r[0] != '0'
  {
    if |s| > 0 && s[0] == '0' then
      var r := LStripZeros(s[1..]);
      assert forall i :: 1 <= i < |s| - |r| ==> s[i] == s[1..][i - 1];
      r
    else s
  }

  /** The clock time as the greeting speaks it. */
  function TimeText(c: Clock): string
  {
    Lower(LStripZeros(Strftime(c)))
  }

  /** The hour without a leading zero. */
  function HourText(h: int): (s: string)
    requires 1 <= h <= 12
  {
    if h < 10 then [Digit(h)] else TwoDigits(h)
  }

  /** `lstrip("0")` removes exactly the leading zero of a one-digit hour. */
  lemma StripHour(h: int, tail: string)
    requires 1 <= h <= 12
    ensures LStripZeros(TwoDigits(h) + tail) == HourText(h) + tail
  {
    var s := TwoDigits(h) + tail;
    if h < 10 {
      assert s[0] == '0' && s[1..] == HourText(h) + tail;
      assert s[1..][0] == Digit(h) && Digit(h) != '0';
    } else {
      assert s[0] == '1';
    }
  }

  /** After the hour: colon, minutes, space, and the lower-cased meridiem. */
  function Tail(minute: int, pm: bool): (s: string)
    requires 0 <= minute < 60
  {
    ":" + TwoDigits(minute) + " " + (if pm then "pm" else "am")
  }

  lemma LowerTail(minute: int, pm: bool)
    requires 0 <= minute < 60
    ensures Lower(ClockTail(minute, pm)) == Tail(minute, pm)
  {
    var front := ":" + TwoDigits(minute) + " ";
    var mer := if pm then "PM" else "AM";
    LowerAppend(front, mer);
    LowerKeepsNonLetters(front);
    assert Lower(mer) == if pm then "pm" else "am";
  }

  lemma HourTextHasNoLetters(h: int)
    requires 1 <= h <= 12
    ensures Lower(HourText(h)) == HourText(h)
  {
    LowerKeepsNonLetters(HourText(h));
  }

  /** The spoken time is the hour without a leading zero, a colon, two
      minute digits, a space and "am" before noon, "pm" from noon on. */
  lemma TimeTextShape(c: Clock)
    ensures TimeText(c) == HourText(Hour12(c.hour)) + Tail(c.minute, c.hour >= 12)
  {
    var h := Hour12(c.hour);
    var pm := c.hour >= 12;
    var up := ClockTail(c.minute, pm);
    var hs := HourText(h);
    StripHour(h, up);
    LowerAppend(hs, up);
    HourTextHasNoLetters(h);
    LowerTail(c.minute, pm);
  }

  /** Reads a spoken time back into a 24-hour clock time. */
  function ParseTime(s: string): Option<ClockTime>
  {
    if |s| < 7 || |s| > 8 then None
    else
      var n := |s|;
      var h12 := if n == 7 then DigitValue(s[0]) else 10 * DigitValue(s[0]) + DigitValue(s[1]);
      var minute := 10 * DigitValue(s[n - 5]) + DigitValue(s[n - 4]);
      var pm := s[n - 2..] == "pm";
      var hour := if pm then (if h12 == 12 then 12 else h12 + 12) else (if h12 == 12 then 0 else h12);
      Some(ClockTime(hour, minute))
  }

  lemma ParseShape(hour: int, minute: int)
    requires 0 <= hour < 24 && 0 <= minute < 60
    ensures ParseTime(HourText(Hour12(hour)) + Tail(minute, hour >= 12)) == Some(ClockTime(hour, minute))
  {
    var h := Hour12(hour);
    var hs, tail := HourText(h), Tail(minute, hour >= 12);
    var s := hs + tail;
    var n := |s|;
    assert |tail| == 6;
    assert s[n - 5] == tail[1] == TwoDigits(minute)[0];
    assert s[n - 4] == tail[2] == TwoDigits(minute)[1];
    assert s[n - 2..] == tail[4..];
    assert s[0] == hs[0];
    if h >= 10 {
      assert s[1] == hs[1];
    }
  }

  /** No two clock times are spoken alike: the text determines the time. */
  lemma TimeTextRoundTrip(c: Clock)
    ensures ParseTime(TimeText(c)) == Some(c)
  {
    TimeTextShape(c);
    ParseShape(c.hour, c.minute);
  }

  lemma TimeTextInjective(c: Clock, d: Clock)
    requires TimeText(c) == TimeText(d)
    ensures c == d
  {
    TimeTextRoundTrip(c);
    TimeTextRoundTrip(d);
  }

  /** The period and the meridiem never contradict each other: a morning
      visit is spoken with "am", an afternoon visit with "pm". */
  lemma PeriodAgreesWithMeridiem(c: Clock)
    ensures var s := TimeText(c);
            |s| >= 2 && (Period(c.hour) == "morning" ==> s[|s| - 2..] == "am")
            && (Period(c.hour) == "afternoon" ==> s[|s| - 2..] == "pm")
  {
    TimeTextShape(c);
    ShapeMeridiem(TimeText(c), c.hour, c.minute);
  }

  /** The same, for any string of the spoken-time shape. */
  lemma ShapeMeridiem(s: string, hour: int, minute: int)
    requires 0 <= hour < 24 && 0 <= minute < 60
    requires s == HourText(Hour12(hour)) + Tail(minute, hour >= 12)
    ensures |s| >= 2 && (Period(hour) == "morning" ==> s[|s| - 2..] == "am")
            && (Period(hour) == "afternoon" ==> s[|s| - 2..] == "pm")
  {
    var tail := Tail(minute, hour >= 12);
    assert s[|s| - 2..] == tail[4..];
  }

  /** The first user in table order whose role is elderly user. */
  function FirstElderly(t: RoleTable): (r: Option<string>)
    ensures r.None? <==> forall i :: 0 <= i < |t| ==> t[i].1 != ElderlyUser
    ensures r.Some? ==> exists i :: 0 <= i < |t| && t[i] == (r.value, ElderlyUser)
                                    && forall k :: 0 <= k < i ==> t[k].1 != ElderlyUser
  {
    if |t| == 0 then None
    else if t[0].1 == ElderlyUser then Some(t[0].0)
    else
      var r := FirstElderly(t[1..]);
      assert forall k :: 1 <= k < |t| ==> t[k] == t[1..][k - 1];
      if r.Some? then
        var i :| 0 <= i < |t[1..]| && t[1..][i] == (r.value, ElderlyUser)
                 && forall k :: 0 <= k < i ==> t[1..][k].1 != ElderlyUser;
        assert t[i + 1] == (r.value, ElderlyUser);
        r
      else r
  }

  function BaseGreeting(name: string, role: string): string
  {
    "Hello " + Capitalize(name) + ", you are recognized as a " + role + "."
  }

  function WelcomeBack(name: string): string
  {
    "Welcome back " + Capitalize(name) + ", it's good to see you again."
  }

  /** The sentence about the elderly user's last visit, for family members
      and caregivers. */
  function LastSeenSentence(t: RoleTable, lastVisit: map<string, Clock>): (r: string)
    ensures r != [] <==> FirstElderly(t).Some? && FirstElderly(t).value in lastVisit
    ensures r != [] ==>
              var e := FirstElderly(t).value;
              r == " Last time I saw " + Capitalize(e) + " was in the " + Period(lastVisit[e].hour)
                   + " at " + TimeText(lastVisit[e]) + "."
  {
    match FirstElderly(t)
    case None => ""
    case Some(e) =>
      if e in lastVisit then
        " Last time I saw " + Capitalize(e) + " was in the " + Period(lastVisit[e].hour)
        + " at " + TimeText(lastVisit[e]) + "."
      else ""
  }

  datatype Greeting = Greeting(message: string, visited: set<string>)

  /** `greet_user_by_role`, with the visit log as a set of names seen today
      (the log is keyed by the lower-cased name). */
  function GreetUserByRole(name: string, t: RoleTable, visited: set<string>,
                           lastVisit: map<string, Clock>): (g: Greeting)
    // The visit is logged after the first-visit test.
    ensures g.visited == visited + {Lower(name)}
    // Whatever the role, a space and the gesture prompt close the message.
    ensures |g.message| > |Closing| && g.message[|g.message| - |Closing|..] == Closing
    ensures var role := GetUserRole(t, name);
            role == ElderlyUser && Lower(name) in visited ==>
              g.message == WelcomeBack(name) + Closing
    ensures var role := GetUserRole(t, name);
            role == ElderlyUser && Lower(name) !in visited ==>
              g.message == BaseGreeting(name, role) + NiceToSeeYou + Closing
    ensures var role := GetUserRole(t, name);
            (role == FamilyMember || role == Caregiver) ==>
              g.message == BaseGreeting(name, role) + LastSeenSentence(t, lastVisit) + Closing
    ensures var role := GetUserRole(t, name);
            role != ElderlyUser && role != FamilyMember && role != Caregiver ==>
              g.message == BaseGreeting(name, role) + Closing
  {
    var role := GetUserRole(t, name);
    var firstVisit := Lower(name) !in visited;
    var greeting := BaseGreeting(name, role);
    var greeting := if role == FamilyMember || role == Caregiver
                    then greeting + LastSeenSentence(t, lastVisit) else greeting;
    var greeting := if role == ElderlyUser
                    then (if firstVisit then greeting + NiceToSeeYou else WelcomeBack(name))
                    else greeting;
    assert |greeting| > 0 by {
      assert |BaseGreeting(name, role)| > 0 && |WelcomeBack(name)| > 0;
    }
    SuffixOfConcat(greeting, Closing);
    Greeting(greeting + Closing, visited + {Lower(name)})
  }

  lemma SuffixOfConcat(a: string, b: string)
    ensures (a + b)[|a + b| - |b|..] == b
  {
  }

  /** Greeting the same elderly user twice in a day: the second greeting is
      the "welcome back" one, and the visit set does not grow again. */
  lemma SecondGreetingWelcomesBack(name: string, t: RoleTable, visited: set<string>,
                                   lastVisit: map<string, Clock>)
    requires GetUserRole(t, name) == ElderlyUser
    ensures var g1 := GreetUserByRole(name, t, visited, lastVisit);
            var g2 := GreetUserByRole(name, t, g1.visited, lastVisit);
            g2.message == WelcomeBack(name) + Closing && g2.visited == g1.visited
  {
  }
}
