/** The workflows_instances table as an object. */
module InstanceStore {
  import opened Common
  import opened Instances

  class Store {
    var schedules: set<ScheduleKey>
    var rows: map<InstanceKey, Instance>

    constructor ()
      ensures schedules == {} && rows == map[]
    {
      schedules, rows := {}, map[];
    }

    function State(): Tables
      reads this
    {
      Tables(schedules, rows)
    }

    method InstancesUpsert(instance: Instance) returns (r: Result<()>)
      modifies this`rows
      ensures r.Ok? ==> Upsert(old(State()), instance) == Ok(State())
      ensures r.Err? ==> Upsert(old(State()), instance) == Err(r.error) && State() == old(State())
    {
      if instance.key in rows {
        return Ok(());
      }
      if ScheduleKey(instance.key.schedule, instance.key.connector) !in schedules {
        return Err(ForeignKeyViolation);
      }
      rows := rows[instance.key := instance];
      return Ok(());
    }

    method InstancesUpdate(instance: Instance)
      modifies this`rows
      ensures State() == Update(old(State()), instance)
    {
      if instance.key in rows {
        rows := rows[instance.key := rows[instance.key].(
          key := instance.key, updatedAt := instance.updatedAt, terminated := instance.terminated,
          terminatedAt := instance.terminatedAt, error := instance.error)];
      }
    }
  }
}
