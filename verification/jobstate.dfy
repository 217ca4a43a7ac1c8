/** Job.java: the flag operations other components call on a job. */
module JobState {
  import opened Model

  /** `kill`: raise the kill flag; nothing else changes. */
  function Kill(j: Job): (r: Job)
    ensures r.killFlag
    ensures r.(killFlag := j.killFlag) == j
  {
    j.(killFlag := true)
  }

  /** `cancel`: kill the job and mark it as failing for lack of resources. */
  function Cancel(j: Job): (r: Job)
    ensures r.killFlag && r.status == LackOfResources
    ensures r.(killFlag := j.killFlag, status := j.status) == j
  {
    Kill(j).(status := LackOfResources)
  }

  /** `toggleGoFlag`: suspend a running job or resume a suspended one. */
  function ToggleGoFlag(j: Job): (r: Job)
    ensures r.goFlag != j.goFlag
    ensures r.(goFlag := j.goFlag) == j
  {
    j.(goFlag := !j.goFlag)
  }

  /** Toggling twice restores the job. */
  lemma ToggleTwice(j: Job)
    ensures ToggleGoFlag(ToggleGoFlag(j)) == j
  {
  }
}
