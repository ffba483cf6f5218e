/** The business-hours indicator: a pure rule over (day of week, hour of day) and
    the one-time relabelling of the fixed call button it drives. The clock is not
    read here: day (0 = Sunday .. 6 = Saturday, as Date.getDay) and hour (0 .. 23,
    as Date.getHours) are parameters. Both come from the visitor's local clock, so
    the rule is applied in the visitor's time zone, not the business's. */
module BusinessHours {

  /** Mon-Fri 7:00-19:00, Sat 8:00-16:00, closed on Sunday. */
  function IsBusinessHours(day: int, hour: int): (open: bool)
    ensures open ==> 1 <= day <= 6 && 7 <= hour < 19
    ensures day == 0 ==> !open
  {
    (1 <= day <= 5 && 7 <= hour < 19) || (day == 6 && 8 <= hour < 16)
  }

  /** The posted opening times of one day, an independent statement of the rule. */
  datatype Opening = Closed | Open(opens: int, closes: int)

  function Schedule(day: int): (o: Opening)
    requires 0 <= day <= 6
    ensures o.Open? ==> o.opens < o.closes
  {
    if day == 0 then Closed
    else if day == 6 then Open(8, 16)
    else Open(7, 19)
  }

  /** The hour range test agrees with the posted schedule, day by day. */
  lemma MatchesSchedule(day: int, hour: int)
    requires 0 <= day <= 6
    ensures IsBusinessHours(day, hour) <==>
            (Schedule(day).Open? && Schedule(day).opens <= hour < Schedule(day).closes)
  {
  }

  /** Number of open hours of `day` among the hours 0 .. h-1. */
  function OpenHoursBefore(day: int, h: nat): (n: nat)
    ensures n <= h
  {
    if h == 0 then 0
    else OpenHoursBefore(day, h - 1) + (if IsBusinessHours(day, h - 1) then 1 else 0)
  }

  /** Counting the whole day gives the length of the posted opening. */
  lemma {:induction false} OpenHoursPerDay(day: int, h: nat)
    requires 0 <= day <= 6 && h <= 24
    ensures OpenHoursBefore(day, h) ==
            match Schedule(day)
            case Closed => 0
            case Open(a, b) => if h <= a then 0 else if h <= b then h - a else b - a
  {
    if h > 0 {
      OpenHoursPerDay(day, h - 1);
    }
  }

  datatype CallLabel = CallNow | LeaveMessage

  /** The fixed call-to-action button. */
  class CallButton {
    var shows: CallLabel
    /** true once its click handler is replaced by "scroll to the quote form" */
    var redirectsToQuote: bool

    constructor ()
      ensures shows == CallNow && !redirectsToQuote
    {
      shows := CallNow;
      redirectsToQuote := false;
    }
  }

  /** Runs once at start-up. Outside business hours the button (when the page has one)
      becomes "Leave Message" and sends the visitor to the quote form; inside business
      hours nothing is touched. */
  method UpdateBusinessHours(button: CallButton?, day: int, hour: int)
    modifies button
    ensures button != null && !IsBusinessHours(day, hour) ==>
              button.shows == LeaveMessage && button.redirectsToQuote
    ensures button != null && IsBusinessHours(day, hour) ==>
              button.shows == old(button.shows) && button.redirectsToQuote == old(button.redirectsToQuote)
  {
    var isBusinessHours := IsBusinessHours(day, hour);
    if button != null {
      if !isBusinessHours {
        button.shows := LeaveMessage;
        button.redirectsToQuote := true;
      }
    }
  }
}
