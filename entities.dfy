/** The three entity classes of the hospital scheduler: a doctor or room
    (`Resource`, whose availability the allocator updates in place), a
    patient (`Patient`, read-only once created) and a booked appointment
    (`Appointment`, created by the allocator and only read afterwards). */
module Entities {

  datatype Option<+T> = None | Some(value: T)

  /** A doctor or a room. `availableTime` is the time from which it is free. */
  class Resource {
    const name: string
    var availableTime: int

    constructor (name: string)
      ensures this.name == name && availableTime == 0
    {
      this.name := name;
      availableTime := 0;
    }
  }

  datatype Patient = Patient(name: string, arrivalTime: int, treatmentDuration: int, id: int)

  /** A booking of one patient with one doctor and one room. The doctor and
      the room are identified by their position in their pool. */
  datatype Appointment = Appointment(patient: Patient, doctor: nat, room: nat, startTime: int, endTime: int)

  /** The appointment constructor: the treatment runs from `startTime` for
      the patient's treatment duration. */
  function NewAppointment(patient: Patient, doctor: nat, room: nat, startTime: int): Appointment
  {
    Appointment(patient, doctor, room, startTime, startTime + patient.treatmentDuration)
  }

  function Duration(a: Appointment): int
  {
    a.endTime - a.startTime
  }

  /** The availability times of a pool, in pool order. */
  ghost function Times(pool: seq<Resource>): (times: seq<int>)
    reads pool
    ensures |times| == |pool|
    ensures forall i :: 0 <= i < |pool| ==> times[i] == pool[i].availableTime
  {
    seq(|pool|, i reads pool requires 0 <= i < |pool| => pool[i].availableTime)
  }

  /** Every resource appears once in its pool and no resource is in both
      pools: each resource is owned by exactly one pool. */
  ghost predicate SeparatePools(doctors: seq<Resource>, rooms: seq<Resource>)
  {
    && (forall i, j :: 0 <= i < j < |doctors| ==> doctors[i] != doctors[j])
    && (forall i, j :: 0 <= i < j < |rooms| ==> rooms[i] != rooms[j])
    && (forall i, j :: 0 <= i < |doctors| && 0 <= j < |rooms| ==> doctors[i] != rooms[j])
  }
}
