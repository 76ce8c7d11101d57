/** Pricing, windows and plans (user_worker/src/config.rs). */
module Config {
  import opened Wrappers

  const COST_IMAGE_VIEW := 1
  const COST_VIDEO_VIEW := 5
  const COST_SEARCH := 100
  const COST_EMBED_SEARCH := 10
  const FREE_GRANT_POINTS := 3_000
  const WINDOW_SECS := 5 * 3600
  const DEDUPE_WINDOW_SECS := 86_400
  const DAY_SECS := 86_400
  const POINTS_PER_USD := 10_000

  datatype Plan = Plan(
    id: string,
    pricePoints: int,
    viewsPerWindow: Option<int>,
    searchesPerWindow: int,
    periodSecs: nat)

  const BASIC := Plan("basic", 20_000, Some(2_000), 10, 30 * 86_400)
  const PRO := Plan("pro", 50_000, None, 50, 30 * 86_400)

  function FindPlan(id: string): Option<Plan> {
    if id == BASIC.id then Some(BASIC)
    else if id == PRO.id then Some(PRO)
    else None
  }
}
