/** The greedy allocator: patients are served in order of arrival, each one
    with the doctor and the room that became free earliest among those free
    at the patient's arrival; a patient for whom no doctor or no room is free
    is dropped. */
module Allocator {
  import opened Entities

  /** Some resource is free at time `t`. */
  ghost predicate HasFree(times: seq<int>, t: int)
  {
    exists j :: 0 <= j < |times| && times[j] <= t
  }

  /** `k` is the resource the allocator picks at time `t`: it is free, no free
      resource became free earlier, and every free resource before it in pool
      order became free strictly later. */
  ghost predicate IsEarliestFree(times: seq<int>, t: int, k: int)
  {
    && 0 <= k < |times|
    && times[k] <= t
    && (forall j :: 0 <= j < |times| && times[j] <= t ==> times[k] <= times[j])
    && (forall j :: 0 <= j < k && times[j] <= t ==> times[k] < times[j])
  }

  /** The selection of `findAvailableResource`, on the pool's times. */
  function Earliest(times: seq<int>, t: int): (r: Option<nat>)
    ensures r.Some? <==> HasFree(times, t)
    ensures r.Some? ==> IsEarliestFree(times, t, r.value)
  {
    if |times| == 0 then None
    else
      var k := |times| - 1;
      var r := Earliest(times[..k], t);
      assert forall j :: 0 <= j < k ==> times[..k][j] == times[j];
      if times[k] <= t && (r.None? || times[k] < times[r.value]) then Some(k) else r
  }

  /** Scans the pool once, keeping the free resource with the smallest
      availability seen so far; a later resource replaces it only when it
      became free strictly earlier. */
  method FindAvailableResource(resources: seq<Resource>, currentTime: int) returns (best: Option<nat>)
    ensures best.Some? <==> HasFree(Times(resources), currentTime)
    ensures best.Some? ==> IsEarliestFree(Times(resources), currentTime, best.value)
    ensures best == Earliest(Times(resources), currentTime)
  {
    best := None;
    var earliestAvailableTime := 0;
    for i := 0 to |resources|
      invariant best == Earliest(Times(resources)[..i], currentTime)
      invariant best.Some? ==> best.value < i && earliestAvailableTime == resources[best.value].availableTime
    {
      var resource := resources[i];
      assert Times(resources)[..i + 1][..i] == Times(resources)[..i];
      if resource.availableTime <= currentTime && (best.None? || resource.availableTime < earliestAvailableTime) {
        earliestAvailableTime := resource.availableTime;
        best := Some(i);
      }
    }
    assert Times(resources)[..|resources|] == Times(resources);
  }

  /** The allocator's state after some patients: the appointments made, the
      patients dropped, and the availability of every doctor and room. */
  datatype Outcome = Outcome(appointments: seq<Appointment>, dropped: seq<Patient>, doctorTimes: seq<int>, roomTimes: seq<int>)

  /** A patient can be served when some doctor and some room are free at the
      patient's arrival. */
  ghost predicate Servable(o: Outcome, p: Patient)
  {
    HasFree(o.doctorTimes, p.arrivalTime) && HasFree(o.roomTimes, p.arrivalTime)
  }

  /** One iteration of the allocator's loop on patient `p`. */
  function Step(o: Outcome, p: Patient): (r: Outcome)
    ensures |r.doctorTimes| == |o.doctorTimes| && |r.roomTimes| == |o.roomTimes|
  {
    var doctor := Earliest(o.doctorTimes, p.arrivalTime);
    var room := Earliest(o.roomTimes, p.arrivalTime);
    if doctor.Some? && room.Some? then
      var a := NewAppointment(p, doctor.value, room.value, p.arrivalTime);
      Outcome(o.appointments + [a], o.dropped,
              o.doctorTimes[doctor.value := a.endTime], o.roomTimes[room.value := a.endTime])
    else
      o.(dropped := o.dropped + [p])
  }

  /** What one iteration does. When some doctor and some room are free at
      the patient's arrival, exactly one appointment is appended: it starts
      at the arrival, lasts the treatment, holds the doctor and the room the
      allocator picks, and exactly those two resources become available at
      its end. Otherwise the patient is dropped and nothing else changes. */
  lemma StepEffect(o: Outcome, p: Patient)
    ensures var r := Step(o, p);
      Servable(o, p) ==>
      && r.dropped == o.dropped
      && |r.appointments| == |o.appointments| + 1
      && r.appointments[..|o.appointments|] == o.appointments
      && var a := r.appointments[|o.appointments|];
      && a.patient == p
      && a.startTime == p.arrivalTime
      && a.endTime == p.arrivalTime + p.treatmentDuration
      && IsEarliestFree(o.doctorTimes, p.arrivalTime, a.doctor)
      && IsEarliestFree(o.roomTimes, p.arrivalTime, a.room)
      && r.doctorTimes == o.doctorTimes[a.doctor := a.endTime]
      && r.roomTimes == o.roomTimes[a.room := a.endTime]
    ensures !Servable(o, p) ==> Step(o, p) == o.(dropped := o.dropped + [p])
  {
  }

  /** The allocator run on patients in the processing order `order`, from the
      given doctor and room availabilities. */
  function Schedule(order: seq<Patient>, doctorTimes: seq<int>, roomTimes: seq<int>): (r: Outcome)
    ensures |r.appointments| + |r.dropped| == |order|
    ensures |r.doctorTimes| == |doctorTimes| && |r.roomTimes| == |roomTimes|
  {
    if order == [] then Outcome([], [], doctorTimes, roomTimes)
    else Step(Schedule(order[..|order| - 1], doctorTimes, roomTimes), order[|order| - 1])
  }

  ghost predicate ArrivalSorted(order: seq<Patient>)
  {
    forall i, j :: 0 <= i < j < |order| ==> order[i].arrivalTime <= order[j].arrivalTime
  }

  /** A position in `queue` holding a patient who arrived no later than any
      other; it shows that the queue can always hand out a patient. */
  ghost function LeastArrival(queue: seq<Patient>): (k: nat)
    requires |queue| > 0
    ensures k < |queue| && forall j :: 0 <= j < |queue| ==> queue[k].arrivalTime <= queue[j].arrivalTime
  {
    if |queue| == 1 then 0
    else
      var k := LeastArrival(queue[1..]) + 1;
      if queue[0].arrivalTime <= queue[k].arrivalTime then 0 else k
  }

  lemma ScheduleSnoc(order: seq<Patient>, p: Patient, doctorTimes: seq<int>, roomTimes: seq<int>)
    ensures Schedule(order + [p], doctorTimes, roomTimes) == Step(Schedule(order, doctorTimes, roomTimes), p)
  {
    assert (order + [p])[..|order|] == order;
  }

  /** `order` is what the queue has handed out so far, in order of arrival,
      and no patient left in `queue` arrived before any of them. */
  ghost predicate Drained(order: seq<Patient>, queue: seq<Patient>, patients: seq<Patient>)
  {
    && multiset(order) + multiset(queue) == multiset(patients)
    && ArrivalSorted(order)
    && forall i, j :: 0 <= i < |order| && 0 <= j < |queue| ==> order[i].arrivalTime <= queue[j].arrivalTime
  }

  /** Handing out a patient of least arrival time keeps `Drained`. */
  lemma Poll(order: seq<Patient>, queue: seq<Patient>, patients: seq<Patient>, k: nat)
    requires Drained(order, queue, patients)
    requires k < |queue| && forall j :: 0 <= j < |queue| ==> queue[k].arrivalTime <= queue[j].arrivalTime
    ensures Drained(order + [queue[k]], queue[..k] + queue[k + 1..], patients)
  {
    var rest := queue[..k] + queue[k + 1..];
    assert queue == queue[..k] + [queue[k]] + queue[k + 1..];
    assert multiset(queue) == multiset(rest) + multiset{queue[k]};
    forall j | 0 <= j < |rest| ensures queue[k].arrivalTime <= rest[j].arrivalTime {
      if j < k { assert rest[j] == queue[j]; } else { assert rest[j] == queue[j + 1]; }
    }
    forall i, j | 0 <= i < |order| + 1 && 0 <= j < |rest|
      ensures (order + [queue[k]])[i].arrivalTime <= rest[j].arrivalTime
    {
      if j < k { assert rest[j] == queue[j]; } else { assert rest[j] == queue[j + 1]; }
    }
  }

  /** Sets the availability of `pool[k]`, which belongs to no other pool. */
  method Occupy(pool: seq<Resource>, k: nat, end: int, other: seq<Resource>)
    requires k < |pool|
    requires forall j :: 0 <= j < |pool| && j != k ==> pool[j] != pool[k]
    requires forall j :: 0 <= j < |other| ==> other[j] != pool[k]
    modifies pool[k]
    ensures Times(pool) == old(Times(pool))[k := end]
    ensures Times(other) == old(Times(other))
  {
    pool[k].availableTime := end;
  }

  /** The body of the allocator's loop for one patient: finds a doctor and a
      room and, when both exist, occupies them until the end of the
      treatment and returns the appointment. */
  method Serve(patient: Patient, doctors: seq<Resource>, rooms: seq<Resource>, ghost o: Outcome)
    returns (booked: Option<Appointment>)
    requires SeparatePools(doctors, rooms)
    requires o.doctorTimes == Times(doctors) && o.roomTimes == Times(rooms)
    modifies doctors, rooms
    ensures Step(o, patient) == if booked.Some?
      then Outcome(o.appointments + [booked.value], o.dropped, Times(doctors), Times(rooms))
      else Outcome(o.appointments, o.dropped + [patient], Times(doctors), Times(rooms))
  {
    var availableDoctor := FindAvailableResource(doctors, patient.arrivalTime);
    var availableRoom := FindAvailableResource(rooms, patient.arrivalTime);
    if availableDoctor.Some? && availableRoom.Some? {
      var a := NewAppointment(patient, availableDoctor.value, availableRoom.value, patient.arrivalTime);
      assert Step(o, patient) == Outcome(o.appointments + [a], o.dropped,
        o.doctorTimes[availableDoctor.value := a.endTime], o.roomTimes[availableRoom.value := a.endTime]);
      Occupy(doctors, availableDoctor.value, a.endTime, rooms);
      Occupy(rooms, availableRoom.value, a.endTime, doctors);
      booked := Some(a);
    } else {
      assert Step(o, patient) == o.(dropped := o.dropped + [patient]);
      booked := None;
    }
  }

  /** The allocator. The patients are put in a priority queue keyed on
      arrival time and served one at a time; `order` is the order in which
      the queue hands them out, which among equal arrival times is any. A
      patient with no free doctor or no free room is reported as dropped. */
  method GreedyScheduleAppointments(patients: seq<Patient>, doctors: seq<Resource>, rooms: seq<Resource>)
    returns (appointments: seq<Appointment>, dropped: seq<Patient>, ghost order: seq<Patient>)
    requires SeparatePools(doctors, rooms)
    modifies doctors, rooms
    ensures multiset(order) == multiset(patients) && ArrivalSorted(order)
    ensures Schedule(order, old(Times(doctors)), old(Times(rooms)))
         == Outcome(appointments, dropped, Times(doctors), Times(rooms))
  {
    appointments, dropped, order := [], [], [];
    ghost var doctorTimes, roomTimes := Times(doctors), Times(rooms);
    var patientQueue := patients;
    while patientQueue != []
      invariant Drained(order, patientQueue, patients)
      invariant Schedule(order, doctorTimes, roomTimes) == Outcome(appointments, dropped, Times(doctors), Times(rooms))
      decreases |patientQueue|
    {
      ghost var least := LeastArrival(patientQueue);
      var k :| 0 <= k < |patientQueue| && forall j :: 0 <= j < |patientQueue| ==> patientQueue[k].arrivalTime <= patientQueue[j].arrivalTime;
      var patient := patientQueue[k];
      Poll(order, patientQueue, patients, k);
      patientQueue := patientQueue[..k] + patientQueue[k + 1..];
      var booked := Serve(patient, doctors, rooms, Outcome(appointments, dropped, Times(doctors), Times(rooms)));
      if booked.Some? {
        appointments := appointments + [booked.value];
      } else {
        dropped := dropped + [patient];
      }
      ScheduleSnoc(order, patient, doctorTimes, roomTimes);
      order := order + [patient];
    }
  }

  /** The patients of a list of appointments, in list order. */
  function PatientsOf(appointments: seq<Appointment>): (patients: seq<Patient>)
    ensures |patients| == |appointments|
    ensures forall k :: 0 <= k < |appointments| ==> patients[k] == appointments[k].patient
  {
    seq(|appointments|, k requires 0 <= k < |appointments| => appointments[k].patient)
  }

  /** The appointment books its patient at arrival for the whole treatment,
      with a doctor and a room of the pools. */
  ghost predicate BookedAtArrival(a: Appointment, doctorCount: nat, roomCount: nat)
  {
    && a.startTime == a.patient.arrivalTime
    && a.endTime == a.patient.arrivalTime + a.patient.treatmentDuration
    && a.doctor < doctorCount
    && a.room < roomCount
  }

  /** What `ScheduleAccountsForEveryPatient` states, for the patients handled so far. */
  ghost predicate Accounted(o: Outcome, handled: seq<Patient>, doctorCount: nat, roomCount: nat)
  {
    && multiset(PatientsOf(o.appointments)) + multiset(o.dropped) == multiset(handled)
    && forall k :: 0 <= k < |o.appointments| ==> BookedAtArrival(o.appointments[k], doctorCount, roomCount)
  }

  lemma StepAccounts(o: Outcome, handled: seq<Patient>, p: Patient, doctorCount: nat, roomCount: nat)
    requires |o.doctorTimes| == doctorCount && |o.roomTimes| == roomCount
    requires Accounted(o, handled, doctorCount, roomCount)
    ensures Accounted(Step(o, p), handled + [p], doctorCount, roomCount)
  {
    var r := Step(o, p);
    StepEffect(o, p);
    if Servable(o, p) {
      var a := r.appointments[|o.appointments|];
      assert r.appointments == o.appointments + [a];
      assert PatientsOf(r.appointments) == PatientsOf(o.appointments) + [p];
      assert IsEarliestFree(o.doctorTimes, p.arrivalTime, a.doctor);
      assert IsEarliestFree(o.roomTimes, p.arrivalTime, a.room);
      forall k | 0 <= k < |r.appointments| ensures BookedAtArrival(r.appointments[k], doctorCount, roomCount) {
        if k < |o.appointments| { assert r.appointments[k] == o.appointments[k]; }
      }
    }
  }

  /** Every patient handed out by the queue is either booked once or dropped
      once, and every booking starts at the patient's arrival and holds a
      doctor and a room of the pools. */
  lemma {:induction false} ScheduleAccountsForEveryPatient(order: seq<Patient>, doctorTimes: seq<int>, roomTimes: seq<int>)
    ensures Accounted(Schedule(order, doctorTimes, roomTimes), order, |doctorTimes|, |roomTimes|)
  {
    if order != [] {
      var prefix, p := order[..|order| - 1], order[|order| - 1];
      ScheduleAccountsForEveryPatient(prefix, doctorTimes, roomTimes);
      StepAccounts(Schedule(prefix, doctorTimes, roomTimes), prefix, p, |doctorTimes|, |roomTimes|);
      assert order == prefix + [p];
    }
  }

  ghost predicate StartsSorted(appointments: seq<Appointment>)
  {
    forall i, j :: 0 <= i < j < |appointments| ==> appointments[i].startTime <= appointments[j].startTime
  }

  lemma StepKeepsStartsSorted(o: Outcome, p: Patient)
    requires StartsSorted(o.appointments)
    requires forall i :: 0 <= i < |o.appointments| ==> o.appointments[i].startTime <= p.arrivalTime
    ensures var apps := Step(o, p).appointments;
      StartsSorted(apps) && forall i :: 0 <= i < |apps| ==> apps[i].startTime <= p.arrivalTime
  {
    var r := Step(o, p);
    StepEffect(o, p);
    if Servable(o, p) {
      assert forall i :: 0 <= i < |o.appointments| ==> r.appointments[i] == o.appointments[i];
    }
  }

  /** A patient handed out later is booked no earlier: with the queue's
      arrival order, the appointments are listed by start time, and none
      starts after the last patient handed out arrived. */
  lemma {:induction false} ScheduleStartsInArrivalOrder(order: seq<Patient>, doctorTimes: seq<int>, roomTimes: seq<int>)
    requires ArrivalSorted(order)
    ensures var apps := Schedule(order, doctorTimes, roomTimes).appointments;
      && StartsSorted(apps)
      && (order != [] ==> forall i :: 0 <= i < |apps| ==> apps[i].startTime <= order[|order| - 1].arrivalTime)
  {
    if order != [] {
      var prefix, p := order[..|order| - 1], order[|order| - 1];
      ScheduleStartsInArrivalOrder(prefix, doctorTimes, roomTimes);
      StepKeepsStartsSorted(Schedule(prefix, doctorTimes, roomTimes), p);
    }
  }

  /** The two pools, so that one statement covers doctors and rooms. */
  datatype Pool = Doctors | Rooms

  function Holder(a: Appointment, pool: Pool): nat
  {
    if pool == Doctors then a.doctor else a.room
  }

  function TimesIn(o: Outcome, pool: Pool): seq<int>
  {
    if pool == Doctors then o.doctorTimes else o.roomTimes
  }

  /** The end time of the last appointment that holds resource `k`, or
      `initial` when none does. */
  function LastClaim(appointments: seq<Appointment>, pool: Pool, k: nat, initial: int): int
  {
    if appointments == [] then initial
    else if Holder(appointments[|appointments| - 1], pool) == k then appointments[|appointments| - 1].endTime
    else LastClaim(appointments[..|appointments| - 1], pool, k, initial)
  }

  /** The availabilities in `pool` are the last claims on `initial`. */
  ghost predicate TracksLastClaim(o: Outcome, pool: Pool, initial: seq<int>)
  {
    && |TimesIn(o, pool)| == |initial|
    && forall k :: 0 <= k < |initial| ==> TimesIn(o, pool)[k] == LastClaim(o.appointments, pool, k, initial[k])
  }

  lemma StepTracksLastClaim(o: Outcome, p: Patient, pool: Pool, initial: seq<int>)
    requires TracksLastClaim(o, pool, initial)
    ensures TracksLastClaim(Step(o, p), pool, initial)
  {
    var r := Step(o, p);
    StepEffect(o, p);
    if Servable(o, p) {
      var a := r.appointments[|o.appointments|];
      assert r.appointments[..|r.appointments| - 1] == o.appointments;
      assert TimesIn(r, pool) == TimesIn(o, pool)[Holder(a, pool) := a.endTime];
    }
  }

  /** The availability of every resource is the end of the last appointment
      that holds it, or its initial availability when none does. */
  lemma {:induction false} ScheduleTracksLastClaim(order: seq<Patient>, doctorTimes: seq<int>, roomTimes: seq<int>, pool: Pool)
    ensures TracksLastClaim(Schedule(order, doctorTimes, roomTimes), pool, TimesIn(Outcome([], [], doctorTimes, roomTimes), pool))
  {
    if order != [] {
      var prefix := order[..|order| - 1];
      ScheduleTracksLastClaim(prefix, doctorTimes, roomTimes, pool);
      StepTracksLastClaim(Schedule(prefix, doctorTimes, roomTimes), order[|order| - 1], pool, TimesIn(Outcome([], [], doctorTimes, roomTimes), pool));
    }
  }

  ghost predicate NonNegativeDurations(order: seq<Patient>)
  {
    forall k :: 0 <= k < |order| ==> order[k].treatmentDuration >= 0
  }

  /** Appointments holding the same resource of `pool` follow one another as
      half-open intervals, and none ends after the resource's availability. */
  ghost predicate KeptApart(o: Outcome, pool: Pool)
  {
    && (forall i :: 0 <= i < |o.appointments| ==>
          Holder(o.appointments[i], pool) < |TimesIn(o, pool)| &&
          o.appointments[i].endTime <= TimesIn(o, pool)[Holder(o.appointments[i], pool)])
    && (forall i, j :: 0 <= i < j < |o.appointments| && Holder(o.appointments[i], pool) == Holder(o.appointments[j], pool) ==>
          o.appointments[i].endTime <= o.appointments[j].startTime)
  }

  lemma StepKeepsApart(o: Outcome, p: Patient, pool: Pool)
    requires KeptApart(o, pool) && p.treatmentDuration >= 0
    ensures KeptApart(Step(o, p), pool)
  {
    var r := Step(o, p);
    StepEffect(o, p);
    if Servable(o, p) {
      var n := |o.appointments|;
      var a := r.appointments[n];
      var h := Holder(a, pool);
      assert IsEarliestFree(TimesIn(o, pool), p.arrivalTime, h);
      assert TimesIn(r, pool) == TimesIn(o, pool)[h := a.endTime];
      assert forall i :: 0 <= i < n ==> r.appointments[i] == o.appointments[i];
    }
  }

  /** No double-booking: two appointments that hold the same doctor, or the
      same room, follow one another as half-open intervals, and no
      appointment holding a resource ends after its availability, which is
      therefore the largest end time among them. */
  lemma {:induction false} ScheduleNoDoubleBooking(order: seq<Patient>, doctorTimes: seq<int>, roomTimes: seq<int>, pool: Pool)
    requires NonNegativeDurations(order)
    ensures KeptApart(Schedule(order, doctorTimes, roomTimes), pool)
  {
    if order != [] {
      var prefix := order[..|order| - 1];
      ScheduleNoDoubleBooking(prefix, doctorTimes, roomTimes, pool);
      StepKeepsApart(Schedule(prefix, doctorTimes, roomTimes), order[|order| - 1], pool);
    }
  }
}
