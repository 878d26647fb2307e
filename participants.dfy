/** Producers and consumers of a microgrid. A producer is read-only to the
    balancer; a consumer's current demand is lowered in place by load
    shedding. */
module Participants {
  import opened Forecasts

  datatype EnergySource = Solar | Wind | HydrogenFuelCell | Hydro | Biogas | Grid

  datatype Producer = Producer(
    id: string,
    source: EnergySource,
    capacity: real,            // kW
    currentProduction: real,   // kW
    forecast: seq<Entry>)
  {
    /** `Producer.get_forecast`: exact entry, else 0 for an empty table, else
        the first entry nearest in time. */
    function GetForecast(t: int): real {
      ForecastAt(forecast, t)
    }
  }

  /** What a consumer looks like to the load-prioritisation step. */
  datatype ConsumerView = ConsumerView(
    id: string,
    category: string,
    currentDemand: real,
    flexibility: real,
    priority: int)
  {
    /** The part of the current demand that may be shed. */
    function FlexibleDemand(): real {
      currentDemand * flexibility
    }
  }

  class Consumer {
    const id: string
    const category: string
    const peakDemand: real     // kW, informational
    var currentDemand: real    // kW
    const forecast: seq<Entry>
    const flexibility: real    // fraction of the demand that may be shed
    const priority: int        // larger means less critical

    constructor (id: string, category: string, peakDemand: real, currentDemand: real,
                 forecast: seq<Entry>, flexibility: real, priority: int)
      ensures View() == ConsumerView(id, category, currentDemand, flexibility, priority)
      ensures this.peakDemand == peakDemand && this.forecast == forecast
    {
      this.id := id;
      this.category := category;
      this.peakDemand := peakDemand;
      this.currentDemand := currentDemand;
      this.forecast := forecast;
      this.flexibility := flexibility;
      this.priority := priority;
    }

    function View(): ConsumerView
      reads this
    {
      ConsumerView(id, category, currentDemand, flexibility, priority)
    }

    /** `Consumer.get_forecast`, the same lookup as the producer's. */
    function GetForecast(t: int): real {
      ForecastAt(forecast, t)
    }
  }
}
