/**
 * std::chrono::system_clock::time_point and the nlohmann adl_serializer that
 * converts it to and from whole seconds since the epoch
 * (include/database.hpp). A time point is a count of clock ticks since the
 * epoch; the tick is the nanosecond of libstdc++'s system_clock.
 */
module TimePointJson {
  import opened Ints
  import opened Wrappers
  import opened JsonModel

  const TicksPerSecond: int := 1_000_000_000

  datatype TimePoint = TimePoint(ticks: int)

  /** The default-constructed time point: the epoch itself. */
  const Epoch: TimePoint := TimePoint(0)

  /** The time point's count fits the clock's 64-bit representation. */
  predicate Representable(tp: TimePoint) {
    -Two63 <= tp.ticks < Two63
  }

  /** A time point that falls on a whole second. */
  predicate IsWholeSecond(tp: TimePoint) {
    tp.ticks % TicksPerSecond == 0
  }

  /**
   * duration_cast<seconds>(tp.time_since_epoch()).count(): whole seconds,
   * the division truncating toward zero as C++ integer division does.
   */
  function Seconds(tp: TimePoint): int {
    if tp.ticks >= 0 then tp.ticks / TicksPerSecond
    else -((-tp.ticks) / TicksPerSecond)
  }

  /** time_point(seconds(n)) */
  function FromSeconds(n: int): (tp: TimePoint)
    ensures IsWholeSecond(tp)
  {
    TimePoint(n * TicksPerSecond)
  }

  /** adl_serializer<time_point>::to_json: the JSON integer of the whole seconds. */
  function ToJson(tp: TimePoint): Json {
    JInt(Seconds(tp))
  }

  /** adl_serializer<time_point>::from_json: get<long long>, then that many seconds after the epoch. */
  function FromJson(j: Json): Result<TimePoint, JsonError> {
    match GetInt64(j)
    case Ok(n) => Ok(FromSeconds(n))
    case Err(e) => Err(e)
  }

  /**
   * Seconds truncates toward zero: going back to a time point yields the whole
   * second next to tp on the side of the epoch, less than a second away.
   */
  lemma SecondsTruncatesTowardZero(tp: TimePoint)
    ensures var w := FromSeconds(Seconds(tp)).ticks;
      && (tp.ticks >= 0 ==> 0 <= w <= tp.ticks < w + TicksPerSecond)
      && (tp.ticks < 0 ==> w - TicksPerSecond < tp.ticks <= w <= 0)
  {
    if tp.ticks < 0 {
      var q := (-tp.ticks) / TicksPerSecond;
      assert q * TicksPerSecond <= -tp.ticks < q * TicksPerSecond + TicksPerSecond;
    }
  }

  /** Whole seconds survive the conversion to seconds and back. */
  lemma WholeSecondsRoundTrip(tp: TimePoint)
    requires IsWholeSecond(tp)
    ensures FromSeconds(Seconds(tp)) == tp
  {
    SecondsTruncatesTowardZero(tp);
  }

  /** Seconds undoes FromSeconds. */
  lemma SecondsOfFromSeconds(n: int)
    ensures Seconds(FromSeconds(n)) == n
  {
    if n < 0 {
      assert (-(n * TicksPerSecond)) / TicksPerSecond == -n;
    }
  }

  /** Deserializing an integer n gives the time point n seconds after the epoch. */
  lemma FromJsonOfInteger(n: Int64)
    ensures FromJson(JInt(n)) == Ok(FromSeconds(n))
    ensures Seconds(FromJson(JInt(n)).value) == n
  {
    SecondsOfFromSeconds(n);
  }

  /** Only numbers and booleans deserialize; anything else is nlohmann's type error. */
  lemma FromJsonRejectsNonNumbers(j: Json)
    ensures FromJson(j).Err? <==> !(j.JInt? || j.JBool?)
  {
  }

  /**
   * The round trip: deserializing the serialization of a representable time
   * point gives it truncated to whole seconds, and gives it back unchanged
   * when it already falls on a whole second.
   */
  lemma RoundTrip(tp: TimePoint)
    requires Representable(tp)
    ensures FromJson(ToJson(tp)) == Ok(FromSeconds(Seconds(tp)))
    ensures IsWholeSecond(tp) ==> FromJson(ToJson(tp)) == Ok(tp)
  {
    SecondsTruncatesTowardZero(tp);
    assert -Two63 <= Seconds(tp) < Two63;
    if IsWholeSecond(tp) {
      WholeSecondsRoundTrip(tp);
    }
  }
}
