/** The transport screen: a filter chip per transport type, an icon per type,
    and the trip duration printed in hours and minutes. */
module Transport {
  import opened Wrappers
  import opened Seqs
  import opened Text
  import opened Records

  /** The filter chips, in display order. */
  const TransportTypes: seq<string> := ["All", "Bus", "Flight", "Train", "Taxi"]

  /** `filteredOptions`: the chip "All" (exactly that spelling) shows every
      option; any other chip keeps the options whose type equals it ignoring
      case, in their original order. */
  function FilteredOptions(options: seq<TransportOptionDTO>, selected: string): (r: seq<TransportOptionDTO>)
    ensures selected == "All" ==> r == options
    ensures selected != "All" ==> IsSubsequence(r, options)
    ensures selected != "All" ==>
              forall o :: o in r <==> o in options && Lower(o.transportType) == Lower(selected)
    ensures forall o :: multiset(r)[o] ==
              if selected == "All" || Lower(o.transportType) == Lower(selected) then multiset(options)[o] else 0
  {
    if selected == "All" then options
    else Filter(options, (o: TransportOptionDTO) => Lower(o.transportType) == Lower(selected))
  }

  /** Choosing the same chip again on the filtered list changes nothing. */
  lemma FilteredOptionsIdempotent(options: seq<TransportOptionDTO>, selected: string)
    ensures FilteredOptions(FilteredOptions(options, selected), selected) == FilteredOptions(options, selected)
  {
    if selected != "All" {
      FilterIdempotent(options, (o: TransportOptionDTO) => Lower(o.transportType) == Lower(selected));
    }
  }

  /** `iconForTransportType`: the system image name for a transport type,
      matched after lower-casing. */
  function IconForTransportType(transportType: string): (icon: string)
    ensures icon == "bus" <==> Lower(transportType) == "bus"
    ensures icon == "airplane" <==> Lower(transportType) == "flight"
    ensures icon == "tram" <==> Lower(transportType) == "train"
    ensures icon == "car" <==> Lower(transportType) == "taxi"
    ensures icon == "location" <==> Lower(transportType) !in ["bus", "flight", "train", "taxi"]
  {
    var key := Lower(transportType);
    if key == "bus" then "bus"
    else if key == "flight" then "airplane"
    else if key == "train" then "tram"
    else if key == "taxi" then "car"
    else "location"
  }

  /** The icon does not depend on letter case: lower-casing the type first
      gives the same icon. */
  lemma IconIgnoresCase(transportType: string)
    ensures IconForTransportType(Lower(transportType)) == IconForTransportType(transportType)
  {
    LowerIdempotent(transportType);
  }

  /** Every chip but "All" names a type with its own icon. */
  lemma ChipsHaveIcons()
    ensures forall t :: t in TransportTypes[1..] ==> IconForTransportType(t) != "location"
  {
    assert Lower("Bus") == "bus";
    assert Lower("Flight") == "flight";
    assert Lower("Train") == "train";
    assert Lower("Taxi") == "taxi";
  }

  lemma IconExamples()
    ensures IconForTransportType("Bus") == "bus"
    ensures IconForTransportType("FLIGHT") == "airplane"
    ensures IconForTransportType("Train") == "tram"
    ensures IconForTransportType("Taxi") == "car"
    ensures IconForTransportType("Ferry") == "location"
  {
    assert Lower("Bus") == "bus";
    assert Lower("FLIGHT") == "flight";
    assert Lower("Train") == "train";
    assert Lower("Taxi") == "taxi";
    assert Lower("Ferry") == "ferry";
  }

  /** `Int(duration / 60)`: the interval in whole minutes, truncated toward zero. */
  function WholeMinutes(start: int, end: int): (m: int)
    ensures end >= start ==> 0 <= m && m * 60 <= end - start < m * 60 + 60
    ensures end < start ==> m <= 0 && m * 60 - 60 < end - start <= m * 60
  {
    var d := end - start;
    if d >= 0 then d / 60 else -((-d) / 60)
  }

  /** `formattedDuration(from:to:)`: "M min" below an hour, "H h M min" from an hour on. */
  function FormattedDuration(start: int, end: int): (r: string)
    ensures WholeMinutes(start, end) < 60 ==> r == IntStr(WholeMinutes(start, end)) + " min"
    ensures |r| > 4 && r[|r| - 4..] == " min"
  {
    var minutes := WholeMinutes(start, end);
    if minutes < 60 then IntStr(minutes) + " min"
    else NatStr(minutes / 60) + " h " + NatStr(minutes % 60) + " min"
  }

  predicate AllDigits(s: string) {
    forall i :: 0 <= i < |s| ==> IsDigit(s[i])
  }

  /** The longest prefix of decimal digits. */
  function TakeDigits(s: string): (r: string)
    ensures |r| <= |s|
  {
    if s == [] || !IsDigit(s[0]) then [] else [s[0]] + TakeDigits(s[1..])
  }

  lemma {:induction false} TakeDigitsOfNumber(digits: string, rest: string)
    requires AllDigits(digits)
    requires rest == [] || !IsDigit(rest[0])
    ensures TakeDigits(digits + rest) == digits
  {
    if digits != [] {
      TakeDigitsOfNumber(digits[1..], rest);
      assert (digits + rest)[1..] == digits[1..] + rest;
    } else {
      assert digits + rest == rest;
    }
  }

  /** Reads a printed duration back as a number of minutes. */
  function ReadDuration(s: string): Option<int> {
    var a := TakeDigits(s);
    if a == [] then None else ReadUnits(ParseNat(a), s[|a|..])
  }

  /** What follows the leading number: " min", or " h " and the minutes. */
  function ReadUnits(n: nat, rest: string): Option<int> {
    if rest == " min" then Some(n)
    else if |rest| >= 3 && rest[..3] == " h " then ReadMinutes(n, rest[3..])
    else None
  }

  function ReadMinutes(hours: nat, rest: string): Option<int> {
    var b := TakeDigits(rest);
    if b != [] && rest[|b|..] == " min" then Some(hours * 60 + ParseNat(b)) else None
  }

  /** The leading number of digits followed by a non-digit is those digits. */
  lemma SplitNumber(ds: string, rest: string)
    requires AllDigits(ds)
    requires rest == [] || !IsDigit(rest[0])
    ensures TakeDigits(ds + rest) == ds && (ds + rest)[|ds|..] == rest
  {
    TakeDigitsOfNumber(ds, rest);
    assert (ds + rest)[|ds|..] == rest;
  }

  lemma AppendAssociates(a: string, b: string, c: string, d: string)
    ensures a + b + c + d == a + (b + (c + d))
  {
  }

  /** Digits followed by " min" read back as the number the digits spell. */
  lemma MinutesTextReadBack(ms: string)
    requires ms != [] && AllDigits(ms)
    ensures ReadDuration(ms + " min") == Some(ParseNat(ms))
  {
    SplitNumber(ms, " min");
  }

  lemma MinutesAfterHours(hours: nat, ms: string)
    requires ms != [] && AllDigits(ms)
    ensures ReadMinutes(hours, ms + " min") == Some(hours * 60 + ParseNat(ms))
  {
    SplitNumber(ms, " min");
  }

  /** A leading number followed by a non-digit is read as that number and
      the units after it. */
  lemma NumberThenUnits(ds: string, rest: string)
    requires ds != [] && AllDigits(ds)
    requires rest == [] || !IsDigit(rest[0])
    ensures ReadDuration(ds + rest) == ReadUnits(ParseNat(ds), rest)
  {
    SplitNumber(ds, rest);
  }

  lemma HoursUnits(hours: nat, minutes: string)
    ensures ReadUnits(hours, " h " + minutes) == ReadMinutes(hours, minutes)
  {
    var tail := " h " + minutes;
    assert |tail| != 4 || tail[1] != 'm';
    assert tail[..3] == " h " && tail[3..] == minutes;
  }

  /** Digits, " h " and the rest read as those hours followed by the minutes. */
  lemma HoursThenMinutes(hs: string, minutes: string)
    requires hs != [] && AllDigits(hs)
    ensures ReadDuration(hs + (" h " + minutes)) == ReadMinutes(ParseNat(hs), minutes)
  {
    NumberThenUnits(hs, " h " + minutes);
    HoursUnits(ParseNat(hs), minutes);
  }

  /** The printed duration of a trip that does not end before it starts
      reads back as its whole minutes: hours times sixty plus the remaining
      minutes, so no minute is lost or double-counted. */
  lemma {:induction false} FormattedDurationReadsBack(start: int, end: int)
    requires start <= end
    ensures ReadDuration(FormattedDuration(start, end)) == Some(WholeMinutes(start, end))
  {
    var m := WholeMinutes(start, end);
    if m < 60 {
      assert FormattedDuration(start, end) == NatStr(m) + " min";
      MinutesTextReadBack(NatStr(m));
      ParseNatStr(m);
    } else {
      var h, r := m / 60, m % 60;
      assert h * 60 + r == m;
      var hs, ms := NatStr(h), NatStr(r);
      assert FormattedDuration(start, end) == hs + " h " + ms + " min";
      AppendAssociates(hs, " h ", ms, " min");
      HoursThenMinutes(hs, ms + " min");
      ParseNatStr(h);
      MinutesAfterHours(ParseNat(hs), ms);
      ParseNatStr(r);
    }
  }

  /** Above an hour the text splits the minutes into whole hours and the
      remaining minutes, each below sixty. */
  lemma HoursAndMinutes(start: int, end: int)
    requires WholeMinutes(start, end) >= 60
    ensures exists h: nat, m: nat ::
              && h * 60 + m == WholeMinutes(start, end) && m < 60 && h >= 1
              && FormattedDuration(start, end) == NatStr(h) + " h " + NatStr(m) + " min"
  {
    var total := WholeMinutes(start, end);
    var h: nat, m: nat := total / 60, total % 60;
    assert h * 60 + m == total;
    assert FormattedDuration(start, end) == NatStr(h) + " h " + NatStr(m) + " min";
  }

  /** The sample trips: the 10:00 to 10:45 bus and the 1200-second taxi ride. */
  lemma DurationExamples(now: int)
    ensures FormattedDuration(10 * 3600, 10 * 3600 + 45 * 60) == "45 min"
    ensures FormattedDuration(now, now + 1200) == "20 min"
    ensures FormattedDuration(11 * 3600 + 30 * 60, 12 * 3600 + 15 * 60) == "45 min"
  {
    assert IntStr(45) == "45" by { assert NatStr(45) == "45"; }
    assert IntStr(20) == "20" by { assert NatStr(20) == "20"; }
    assert WholeMinutes(10 * 3600, 10 * 3600 + 45 * 60) == 45;
    assert WholeMinutes(now, now + 1200) == 20;
    assert WholeMinutes(11 * 3600 + 30 * 60, 12 * 3600 + 15 * 60) == 45;
  }
}
