/** The instrument registry (config/instruments.py), as far as sizing and trailing read it. */
module Instruments {
  import opened Market

  datatype Instrument = Instrument(pipSize: real, pipValue: real, lotStep: real) {
    predicate Sound() {
      pipSize > 0.0 && pipValue > 0.0 && lotStep == 0.01
    }
  }

  /** None where the source raises KeyError. */
  function GetInstrument(symbol: string): Option<Instrument> {
    match symbol
    case "EURUSD" => Some(Instrument(0.0001, 10.0, 0.01))
    case "GBPUSD" => Some(Instrument(0.0001, 10.0, 0.01))
    case "USDJPY" => Some(Instrument(0.01, 9.09, 0.01))
    case "XAUUSD" => Some(Instrument(0.01, 1.0, 0.01))
    case "GBPJPY" => Some(Instrument(0.01, 9.09, 0.01))
    case "EURJPY" => Some(Instrument(0.01, 9.09, 0.01))
    case "AUDUSD" => Some(Instrument(0.0001, 10.0, 0.01))
    case "USDCHF" => Some(Instrument(0.0001, 10.27, 0.01))
    case "US30" => Some(Instrument(1.0, 1.0, 0.01))
    case "NAS100" => Some(Instrument(1.0, 1.0, 0.01))
    case "BTCUSD" => Some(Instrument(1.0, 1.0, 0.01))
    case "USDCAD" => Some(Instrument(0.0001, 7.43, 0.01))
    case _ => None
  }

  /** Every listed instrument has a positive pip size and pip value, and the same lot step. */
  lemma ListedAreSound(symbol: string)
    ensures GetInstrument(symbol).Some? ==> GetInstrument(symbol).value.Sound()
  {
  }

  /** Twelve symbols are listed; a pip is a hundredth for yen pairs and gold, 1 for indices and bitcoin, and a
      ten-thousandth for the rest, and is worth 10 USD a lot except where another currency or size says otherwise. */
  lemma ListedIff(symbol: string)
    ensures GetInstrument(symbol).Some? <==>
              symbol in {"EURUSD", "GBPUSD", "AUDUSD", "USDCHF", "USDCAD", "USDJPY", "GBPJPY", "EURJPY", "XAUUSD", "US30", "NAS100", "BTCUSD"}
    ensures GetInstrument(symbol).Some? ==>
              var i := GetInstrument(symbol).value;
              && (i.pipSize == 0.01 <==> symbol in {"USDJPY", "GBPJPY", "EURJPY", "XAUUSD"})
              && (i.pipSize == 1.0 <==> symbol in {"US30", "NAS100", "BTCUSD"})
              && i.pipSize in {0.0001, 0.01, 1.0}
              && (i.pipValue == 9.09 <==> symbol in {"USDJPY", "GBPJPY", "EURJPY"})
              && (i.pipValue == 1.0 <==> symbol in {"XAUUSD", "US30", "NAS100", "BTCUSD"})
              && (i.pipValue == 10.27 <==> symbol == "USDCHF") && (i.pipValue == 7.43 <==> symbol == "USDCAD")
              && i.pipValue in {1.0, 7.43, 9.09, 10.0, 10.27}
  {
  }
}
