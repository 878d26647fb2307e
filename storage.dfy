/** Energy storage units: their derived quantities and the clamped
    charge/discharge primitives. */
module Storage {
  import opened Quantities

  datatype StorageType = Battery | Hydrogen | Thermal | Mechanical | Vehicle

  /** The state of a storage unit at one moment, as the balancer reads it. */
  datatype UnitView = UnitView(
    id: string,
    kind: StorageType,
    capacity: real,          // kWh
    level: real,             // kWh
    maxChargeRate: real,     // kW
    maxDischargeRate: real,  // kW
    priority: int)
  {
    /** The design invariant: the level lies between empty and full. */
    predicate WithinBounds() {
      0.0 <= level <= capacity
    }

    /** `available_capacity`: the room left before the unit is full. */
    function AvailableCapacity(): (r: real)
      ensures level + r == capacity
      ensures WithinBounds() ==> 0.0 <= r <= capacity
    {
      capacity - level
    }

    /** `state_of_charge`: the level as a percentage of the capacity. A zero
        capacity makes the source divide by zero. */
    function StateOfCharge(): (r: real)
      requires capacity != 0.0
      ensures r * capacity == level * 100.0
      ensures WithinBounds() ==> 0.0 <= r <= 100.0
    {
      (level / capacity) * 100.0
    }

    /** `can_charge`: the average rate `amount / duration` is within the charge
        limit and the amount fits. A duration that is not positive stands for
        an infinite rate, which no finite limit admits. */
    function CanCharge(amount: real, duration: real): (r: bool)
      ensures r <==> duration > 0.0 && amount <= maxChargeRate * duration
                     && amount <= capacity - level
    {
      assert duration > 0.0 ==> (amount / duration <= maxChargeRate <==> amount <= maxChargeRate * duration) by {
        if duration > 0.0 { RateBound(amount, duration, maxChargeRate); }
      }
      duration > 0.0 && amount / duration <= maxChargeRate && amount <= AvailableCapacity()
    }

    /** `can_discharge`: as `CanCharge`, against the discharge limit and the
        stored level. */
    function CanDischarge(amount: real, duration: real): (r: bool)
      ensures r <==> duration > 0.0 && amount <= maxDischargeRate * duration
                     && amount <= level
    {
      assert duration > 0.0 ==> (amount / duration <= maxDischargeRate <==> amount <= maxDischargeRate * duration) by {
        if duration > 0.0 { RateBound(amount, duration, maxDischargeRate); }
      }
      duration > 0.0 && amount / duration <= maxDischargeRate && amount <= level
    }
  }

  lemma RateBound(amount: real, duration: real, limit: real)
    requires duration > 0.0
    ensures amount / duration <= limit <==> amount <= limit * duration
  {
    var rate := amount / duration;
    assert rate * duration == amount;
    if rate <= limit {
      assert rate * duration <= limit * duration;
    } else {
      assert rate * duration > limit * duration;
    }
  }

  /** A storage unit. Only its level changes after construction. */
  class EnergyStorage {
    const id: string
    const kind: StorageType
    const capacity: real
    var currentLevel: real
    const maxChargeRate: real
    const maxDischargeRate: real
    const priority: int

    constructor (id: string, kind: StorageType, capacity: real, currentLevel: real,
                 maxChargeRate: real, maxDischargeRate: real, priority: int)
      ensures View() == UnitView(id, kind, capacity, currentLevel, maxChargeRate, maxDischargeRate, priority)
    {
      this.id := id;
      this.kind := kind;
      this.capacity := capacity;
      this.currentLevel := currentLevel;
      this.maxChargeRate := maxChargeRate;
      this.maxDischargeRate := maxDischargeRate;
      this.priority := priority;
    }

    function View(): UnitView
      reads this
    {
      UnitView(id, kind, capacity, currentLevel, maxChargeRate, maxDischargeRate, priority)
    }

    /** `charge`: adds the requested amount clamped to the room left and
        returns what was added. No rate limit is applied here. */
    method Charge(amount: real) returns (actual: real)
      modifies this
      ensures actual == Min(amount, old(View().AvailableCapacity()))
      ensures currentLevel == old(currentLevel) + actual
      ensures old(View().WithinBounds()) && amount >= 0.0 ==> View().WithinBounds() && 0.0 <= actual <= amount
    {
      actual := Min(amount, capacity - currentLevel);
      currentLevel := currentLevel + actual;
    }

    /** `discharge`: removes the requested amount clamped to the level and
        returns what was removed. */
    method Discharge(amount: real) returns (actual: real)
      modifies this
      ensures actual == Min(amount, old(currentLevel))
      ensures currentLevel == old(currentLevel) - actual
      ensures old(View().WithinBounds()) && amount >= 0.0 ==> View().WithinBounds() && 0.0 <= actual <= amount
    {
      actual := Min(amount, currentLevel);
      currentLevel := currentLevel - actual;
    }
  }
}
