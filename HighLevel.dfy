/** The high-level pass: fixed thresholds on room temperature, skin (wrist)
    temperature and room humidity. */
module HighLevel {
  import opened Records

  const MinRoomTemp: real := 18.0
  const MaxRoomTemp: real := 26.0
  const MinSkinTemp: real := 30.0
  const MaxSkinTemp: real := 38.0
  const MinHumidity: real := 20.0
  const MaxHumidity: real := 80.0

  /** The proposal of one temperature check; `Neutral` is the source's None. */
  datatype TempSignal = Neutral | Heat | Cool

  /** The proposal of the humidity check. */
  datatype HumiditySignal = Steady | Humidify | Dry

  function CheckRoomTemperature(m: Record): (s: TempSignal)
    ensures s == Heat <==> m.roomTemp < MinRoomTemp
    ensures s == Cool <==> m.roomTemp > MaxRoomTemp
  {
    if m.roomTemp < MinRoomTemp then Heat
    else if m.roomTemp > MaxRoomTemp then Cool
    else Neutral
  }

  function CheckSkinTemperature(m: Record): (s: TempSignal)
    ensures s == Heat <==> m.wristTemp < MinSkinTemp
    ensures s == Cool <==> m.wristTemp > MaxSkinTemp
  {
    if m.wristTemp < MinSkinTemp then Heat
    else if m.wristTemp > MaxSkinTemp then Cool
    else Neutral
  }

  function CheckRoomHumidity(m: Record): (s: HumiditySignal)
    ensures s == Humidify <==> m.humidity < MinHumidity
    ensures s == Dry <==> m.humidity > MaxHumidity
  {
    if m.humidity < MinHumidity then Humidify
    else if m.humidity > MaxHumidity then Dry
    else Steady
  }

  /** `high_level_decision_making`: cooling wins when one check says cool and
      the other does not say heat; heating is tried only otherwise; the
      humidity proposal is copied onto its own axis. */
  function HighLevelActions(m: Record): (r: Actions)
    ensures r.cool == 1 <==>
              (m.roomTemp > MaxRoomTemp && m.wristTemp >= MinSkinTemp) ||
              (m.roomTemp >= MinRoomTemp && m.wristTemp > MaxSkinTemp)
    ensures r.heat == 1 <==>
              (m.roomTemp < MinRoomTemp && m.wristTemp <= MaxSkinTemp) ||
              (m.roomTemp <= MaxRoomTemp && m.wristTemp < MinSkinTemp)
    ensures r.humidify == 1 <==> m.humidity < MinHumidity
    ensures r.dry == 1 <==> m.humidity > MaxHumidity
    ensures !(r.heat == 1 && r.cool == 1)
    ensures !(r.humidify == 1 && r.dry == 1)
  {
    var room := CheckRoomTemperature(m);
    var skin := CheckSkinTemperature(m);
    var temperature :=
      if (room == Cool && skin != Heat) || (room != Heat && skin == Cool) then
        NoActions.(cool := 1)
      else if (room == Heat && skin != Cool) || (room != Cool && skin == Heat) then
        NoActions.(heat := 1)
      else
        NoActions;
    match CheckRoomHumidity(m)
    case Steady => temperature
    case Humidify => temperature.(humidify := 1)
    case Dry => temperature.(dry := 1)
  }

  /** Opposing room and skin signals cancel: neither heat nor cool. */
  lemma OpposingSignalsCancel(m: Record)
    requires (CheckRoomTemperature(m) == Heat && CheckSkinTemperature(m) == Cool) ||
             (CheckRoomTemperature(m) == Cool && CheckSkinTemperature(m) == Heat)
    ensures HighLevelActions(m).heat == 0 && HighLevelActions(m).cool == 0
  {
  }

  /** Heat or cool is proposed exactly when some check is not neutral and the
      two checks do not oppose each other. */
  lemma TemperatureDecidedIffUnopposed(m: Record)
    ensures var room, skin := CheckRoomTemperature(m), CheckSkinTemperature(m);
            (HighLevelActions(m).heat == 1 || HighLevelActions(m).cool == 1) <==>
            ((room != Neutral || skin != Neutral) &&
             !(room == Heat && skin == Cool) && !(room == Cool && skin == Heat))
  {
  }
}
