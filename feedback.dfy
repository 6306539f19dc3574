/**
 * Feedback the engines request from the device: the click and alarm sounds and
 * vibration patterns. Whether a request is rendered (sound or vibration switched
 * off in the settings, no vibration support) is the renderer's decision, so the
 * engines always emit the tags.
 */
module Feedback {

  datatype Event =
    | Click                        // short 440 Hz tone on button presses
    | Alarm                        // end-of-set alarm sound
    | Vibrate(pattern: seq<nat>)   // vibration pattern in milliseconds

  /** Vibration on a captured lap. */
  const LapVibration: seq<nat> := [50]

  /** Vibration at the end of a countdown set. */
  const AlarmVibration: seq<nat> := [200, 100, 200, 100, 200]
}
