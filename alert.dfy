/** The alert playback routine that runs on the detached alert thread
    (application_code.py, play_alert). */
module Alert {

  /** How many times the alert sound is played at most. */
  const AlertRepeats: nat := 5

  /** Plays the alert sound up to AlertRepeats times in sequence and stops at the first
      playback that fails. `playsound(k)` is the outcome of the k-th call of the audio
      player (true when it returns, false when it raises). Returns how many playbacks were
      attempted and whether the routine stopped because one failed. */
  method PlayAlert(playsound: nat -> bool) returns (attempts: nat, failed: bool)
    ensures 1 <= attempts <= AlertRepeats
    // every attempt before the last one succeeded: nothing is attempted after a failure
    ensures forall k :: 0 <= k < attempts - 1 ==> playsound(k)
    ensures failed <==> !playsound(attempts - 1)
    // fewer than AlertRepeats attempts only when the last one failed
    ensures !failed ==> attempts == AlertRepeats
  {
    attempts, failed := 0, false;
    for k := 0 to AlertRepeats
      invariant attempts == k && !failed
      invariant forall m :: 0 <= m < k ==> playsound(m)
    {
      attempts := attempts + 1;
      if !playsound(k) {
        failed := true;
        break;
      }
    }
  }
}
