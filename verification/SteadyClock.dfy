/** `std::chrono::steady_clock`, which counts nanoseconds and does not go back. */
module SteadyClock {

  type Time = int

  const TICKS_PER_MS := 1_000_000
}
