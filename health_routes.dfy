/**
 * The probes behind `/api/health`: the aggregated status of the store and the
 * cache, readiness (the store answers) and liveness (the process answers).
 */
module HealthRoutes {
  import opened Wrappers
  import opened RedisConfig

  const Healthy: string := "healthy"
  const Degraded: string := "degraded"
  const Unhealthy: string := "unhealthy"
  const NotConnected: string := "not_connected"
  const Unknown: string := "unknown"

  /** The per-service labels of the health body. */
  datatype Services = Services(database: string, redis: string)

  /** The health body, without its timestamp, uptime, version and environment. */
  datatype Health = Health(status: string, services: Services)

  /**
   * GET `/`: starts from `healthy` with both services `unknown` and code 200,
   * then lets a failed `SELECT 1` or a failed ping degrade the status with code
   * 503. A missing client degrades the status too but leaves the code alone.
   */
  method HealthCheck(dbOk: bool, redis: RedisConnection, pingOk: bool) returns (health: Health, statusCode: int)
    requires redis.Valid()
    ensures health.status == Healthy <==> dbOk && redis.client.Some? && pingOk
    ensures health.status == Healthy || health.status == Degraded
    ensures statusCode == 503 <==> !dbOk || (redis.client.Some? && !pingOk)
    ensures statusCode == 200 || statusCode == 503
    ensures health.services.database == (if dbOk then Healthy else Unhealthy)
    ensures health.services.redis == (if redis.client.None? then NotConnected else if pingOk then Healthy else Unhealthy)
    ensures health.services.database != Unknown && health.services.redis != Unknown
    ensures dbOk && redis.client.None? ==> health.status == Degraded && statusCode == 200
  {
    health := Health(Healthy, Services(Unknown, Unknown));
    statusCode := 200;

    if dbOk {
      health := health.(services := health.services.(database := Healthy));
    } else {
      health := health.(services := health.services.(database := Unhealthy));
      health := health.(status := Degraded);
      statusCode := 503;
    }

    var client := redis.GetRedisClient();
    if client.Some? {
      if pingOk {
        health := health.(services := health.services.(redis := Healthy));
      } else {
        health := health.(services := health.services.(redis := Unhealthy));
        health := health.(status := Degraded);
        statusCode := 503;
      }
    } else {
      health := health.(services := health.services.(redis := NotConnected));
      health := health.(status := Degraded);
    }
  }

  const Ready: string := "ready"
  const NotReady: string := "not_ready"
  const DatabaseNotAvailable: string := "Database not available"

  /** GET `/ready`: ready with 200 exactly when `SELECT 1` succeeds, otherwise not ready with 503 and an error. */
  method Readiness(dbOk: bool) returns (status: string, error: Option<string>, statusCode: int)
    ensures status == Ready <==> dbOk
    ensures status == Ready || status == NotReady
    ensures statusCode == (if dbOk then 200 else 503)
    ensures error.Some? <==> !dbOk
    ensures error.Some? ==> error.value == DatabaseNotAvailable
  {
    if dbOk {
      status, error, statusCode := Ready, None, 200;
    } else {
      status, error, statusCode := NotReady, Some(DatabaseNotAvailable), 503;
    }
  }

  const Alive: string := "alive"

  /** GET `/live`: always alive with the default 200; it consults nothing. */
  method Liveness() returns (status: string, statusCode: int)
    ensures status == Alive && statusCode == 200
  {
    status, statusCode := Alive, 200;
  }
}
