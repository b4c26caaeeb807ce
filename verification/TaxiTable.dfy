// The dispatcher's table and the driver's loop of Final_Task2/taxi_system.c.
module TaxiTable {
  import opened MessageQueue

  const MAX_DRIVERS := 100

  datatype Driver = Driver(pid: int, isBusy: bool, taskTimer: int)

  // A task carries its timer (the sender field is whatever the stack held); a
  // completion carries the driver's pid and the timer it received.
  datatype Body = Body(time: int, pid: int)
  type Message = Envelope<Body>

  function Find(t: seq<Driver>, pid: int): (r: int)
    ensures -1 <= r < |t|
    ensures r >= 0 ==> t[r].pid == pid && forall j :: 0 <= j < r ==> t[j].pid != pid
    ensures r == -1 ==> forall j :: 0 <= j < |t| ==> t[j].pid != pid
  {
    if t == [] then -1
    else if t[0].pid == pid then 0
    else var r := Find(t[1..], pid);
         if r == -1 then
           assert forall j :: 0 < j < |t| ==> t[j] == t[1..][j - 1];
           -1
         else r + 1
  }

  // Whether a task for pid would be accepted.
  predicate Accepts(t: seq<Driver>, pid: int) {
    Find(t, pid) >= 0 && !t[Find(t, pid)].isBusy
  }

  function WithTask(t: seq<Driver>, pid: int, timer: int): seq<Driver> {
    if Accepts(t, pid) then t[Find(t, pid) := Driver(pid, true, timer)] else t
  }

  function TaskMessages(t: seq<Driver>, pid: int, timer: int, junk: int): seq<Message> {
    if Accepts(t, pid) then [Envelope(pid, Body(timer, junk))] else []
  }

  function WithDone(t: seq<Driver>, pid: int): seq<Driver> {
    if Find(t, pid) >= 0 then t[Find(t, pid) := Driver(pid, false, 0)] else t
  }

  // The globals drivers and driver_count, and what main puts into the queue.
  class Dispatcher {
    const drivers: array<Driver>
    var driverCount: nat
    var sent: seq<Message>

    ghost predicate Valid()
      reads this`driverCount
    {
      drivers.Length == MAX_DRIVERS && driverCount <= MAX_DRIVERS
    }

    ghost function Table(): seq<Driver>
      requires Valid()
      reads this`driverCount, drivers
    {
      drivers[..driverCount]
    }

    constructor ()
      ensures Valid() && fresh(drivers) && Table() == [] && sent == []
    {
      drivers := new Driver[MAX_DRIVERS];
      driverCount := 0;
      sent := [];
    }

    // create_driver in the parent, after fork returned pid.
    method CreateDriver(pid: int)
      requires Valid() && driverCount < MAX_DRIVERS
      modifies this`driverCount, drivers
      ensures Valid() && Table() == old(Table()) + [Driver(pid, false, 0)]
    {
      drivers[driverCount] := Driver(pid, false, 0);
      driverCount := driverCount + 1;
    }

    method Locate(pid: int) returns (r: int)
      requires Valid()
      ensures r == Find(Table(), pid)
    {
      var i := 0;
      while i < driverCount
        invariant i <= driverCount
        invariant Find(Table(), pid) == var k := Find(Table()[i..], pid); if k == -1 then -1 else i + k
      {
        if drivers[i].pid == pid {
          return i;
        }
        assert Table()[i..][1..] == Table()[i + 1..];
        i := i + 1;
      }
      return -1;
    }

    method SendTask(pid: int, timer: int, junk: int)
      requires Valid()
      modifies this`sent, drivers
      ensures Valid() && Table() == WithTask(old(Table()), pid, timer)
      ensures sent == old(sent) + TaskMessages(old(Table()), pid, timer, junk)
      ensures var i := Find(old(Table()), pid);
              if i >= 0 && !old(Table())[i].isBusy
              then Table() == old(Table())[i := Driver(pid, true, timer)] &&
                   sent == old(sent) + [Envelope(pid, Body(timer, junk))]
              else Table() == old(Table()) && sent == old(sent)
    {
      var i := Locate(pid);
      if i == -1 || drivers[i].isBusy {
        assert sent == sent + [];
        return;
      }
      drivers[i] := Driver(pid, true, timer);
      sent := sent + [Envelope(pid, Body(timer, junk))];
    }

    method UpdateStatusDriver(pid: int)
      requires Valid()
      modifies drivers
      ensures Valid() && Table() == WithDone(old(Table()), pid)
      ensures var i := Find(old(Table()), pid);
              Table() == if i >= 0 then old(Table())[i := Driver(pid, false, 0)] else old(Table())
    {
      var i := Locate(pid);
      if i != -1 {
        drivers[i] := Driver(pid, false, 0);
      }
    }
  }

  // One round of driver_process for a received task: how many seconds it sleeps
  // and how many completions it sends.
  method DriverRound(time: int) returns (ticks: nat, completions: nat)
    ensures time > 0 ==> ticks == time && completions == 1
    ensures time <= 0 ==> ticks == 0 && completions == 0
  {
    var isBusy, taskTimer := false, 0;
    ticks, completions := 0, 0;
    if time > 0 {
      taskTimer := time;
      isBusy := true;
    }
    while isBusy
      invariant isBusy ==> taskTimer > 0 && ticks + taskTimer == time && completions == 0
      invariant !isBusy ==> if time > 0 then ticks == time && completions == 1 else ticks == 0 && completions == 0
      decreases taskTimer, isBusy
    {
      ticks := ticks + 1;
      taskTimer := taskTimer - 1;
      if taskTimer <= 0 {
        isBusy := false;
        taskTimer := 0;
        completions := completions + 1;
      }
    }
  }
}
