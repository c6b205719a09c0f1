/**
 * The four page renderers and the dispatch that picks one of them.
 *
 * A renderer reads the system values it needs, clears the image, draws its
 * texts and sends the image to the display. Here a renderer is a function of
 * the values it reads that either yields the frame it would show (the
 * positions of its centred texts and the values that are not formatted by a
 * library) or the exception it raises before the frame is shown.
 */
module Renderers {
  import opened Pages
  import opened Uptime
  import opened Layout

  datatype Option<T> = None | Some(value: T)

  /** The system values one iteration can read. */
  datatype Readings = Readings(
    temperatures: map<string, seq<real>>,  // sensor name to its readings, in degrees Celsius
    uptime: real,                          // first field of the uptime file, seconds since boot
    date: string,                          // the clock formatted as month-day-year
    time: string,                          // the clock formatted as hours:minutes:seconds AM/PM
    address: Option<string>)               // the outgoing IPv4 address, None when the lookup failed

  /** The exceptions a renderer can raise. */
  datatype Fault =
    | TemperatureUnbound   // no sensor at all: the temperature is printed without ever being assigned
    | NoCpuThermalSensor   // sensors exist but none is named "cpu_thermal": a missing key
    | NoCpuThermalReading  // the "cpu_thermal" sensor has no reading: an index out of range
    | AddressMissing       // the address lookup failed and the length of None is taken

  /** What a renderer sends to the display. */
  datatype Frame =
    | MetricsFrame(headerX: real, temperature: real)
    | UptimeFrame(headerX: real, elapsed: Duration)
    | ClockFrame(headerX: real, date: string, dateX: real, time: string, timeX: real)
    | AddressFrame(headerX: real, address: string, addressX: real)
  {
    /** The page this frame belongs to. */
    function Page(): int {
      match this
      case MetricsFrame(_, _) => 0
      case UptimeFrame(_, _) => 1
      case ClockFrame(_, _, _, _, _) => 2
      case AddressFrame(_, _, _) => 3
    }
  }

  /** The result of one dispatch: a shown frame, an exception, or no renderer at all. */
  datatype Outcome = Drawn(frame: Frame) | Raised(fault: Fault) | NoRenderer

  /** The CPU temperature can be read: the "cpu_thermal" sensor exists and has a reading. */
  predicate TemperatureReadable(r: Readings) {
    "cpu_thermal" in r.temperatures && |r.temperatures["cpu_thermal"]| > 0
  }

  /** The metrics page: CPU load and temperature, memory use and memory left. */
  function RenderMetrics(r: Readings): (o: Outcome)
    ensures o.Drawn? <==> TemperatureReadable(r)
    ensures o.Drawn? ==> o.frame.MetricsFrame? && o.frame.headerX == 4.0
    ensures o.Drawn? ==> o.frame.temperature == r.temperatures["cpu_thermal"][0]
    ensures o.Raised? <==> !TemperatureReadable(r)
    ensures o.Raised? ==> (o.fault == TemperatureUnbound <==> |r.temperatures| == 0)
    ensures o.Raised? && |r.temperatures| > 0 ==> (o.fault == NoCpuThermalSensor <==> "cpu_thermal" !in r.temperatures)
    ensures o.Raised? && "cpu_thermal" in r.temperatures ==> o.fault == NoCpuThermalReading
  {
    if |r.temperatures| == 0 then Raised(TemperatureUnbound)
    else if "cpu_thermal" !in r.temperatures then Raised(NoCpuThermalSensor)
    else if |r.temperatures["cpu_thermal"]| == 0 then Raised(NoCpuThermalReading)
    else Drawn(MetricsFrame(CentredX(DisplayWidth, |MetricsHeader|, HeaderGlyph), r.temperatures["cpu_thermal"][0]))
  }

  /** The uptime page: days, hours, minutes and seconds since boot. */
  function RenderUptime(r: Readings): (o: Outcome)
    ensures o.Drawn? && o.frame.UptimeFrame? && o.frame.headerX == 11.5
    ensures r.uptime >= 0.0 ==> Normal(o.frame.elapsed) && TotalSeconds(o.frame.elapsed) == r.uptime.Floor
  {
    var o := Drawn(UptimeFrame(CentredX(DisplayWidth, |UptimeHeader|, UptimeHeaderGlyph), UptimeParts(r.uptime)));
    if r.uptime >= 0.0 then UptimePartsExact(r.uptime); o else o
  }

  /** The clock page: the date and the time, each centred in the value font. */
  function RenderClock(r: Readings): (o: Outcome)
    ensures o.Drawn? && o.frame.ClockFrame? && o.frame.headerX == 16.0
    ensures o.frame.date == r.date && o.frame.time == r.time
    ensures o.frame.dateX == CentredX(DisplayWidth, |r.date|, ValueGlyph)
    ensures o.frame.timeX == CentredX(DisplayWidth, |r.time|, ValueGlyph)
    ensures |r.date| == 10 ==> o.frame.dateX == 14.0
    ensures |r.time| == 11 ==> o.frame.timeX == 9.0
  {
    Drawn(ClockFrame(CentredX(DisplayWidth, |ClockHeader|, HeaderGlyph),
                     r.date, CentredX(DisplayWidth, |r.date|, ValueGlyph),
                     r.time, CentredX(DisplayWidth, |r.time|, ValueGlyph)))
  }

  /** The address page: the IPv4 address, centred in the value font. */
  function RenderAddress(r: Readings): (o: Outcome)
    ensures o.Raised? <==> r.address.None?
    ensures o.Raised? ==> o.fault == AddressMissing
    ensures o.Drawn? ==> o.frame.AddressFrame? && o.frame.headerX == 24.0 && o.frame.address == r.address.value
    ensures o.Drawn? ==> o.frame.addressX == CentredX(DisplayWidth, |r.address.value|, ValueGlyph)
    ensures o.Drawn? ==> (o.frame.addressX >= 0.0 <==> |r.address.value| <= 12)
  {
    match r.address
    case None => Raised(AddressMissing)
    case Some(ip) => Drawn(AddressFrame(CentredX(DisplayWidth, |AddressHeader|, HeaderGlyph),
                                        ip, CentredX(DisplayWidth, |ip|, ValueGlyph)))
  }

  /**
   * The dispatch on the page. Exactly one renderer runs for a page in 0..3,
   * and the frame it shows belongs to that page; only the metrics page
   * without a temperature and the address page without an address raise.
   */
  function Render(page: int, r: Readings): (o: Outcome)
    ensures o.NoRenderer? <==> !ValidPage(page)
    ensures o.Drawn? ==> o.frame.Page() == page
    ensures o.Raised? <==> (page == 0 && !TemperatureReadable(r)) || (page == 3 && r.address.None?)
  {
    if page == 0 then RenderMetrics(r)
    else if page == 1 then RenderUptime(r)
    else if page == 2 then RenderClock(r)
    else if page == 3 then RenderAddress(r)
    else NoRenderer
  }
}
