/**
 What the kernel does with the value a filter program returns: xdp_action and
 tcx_action_base of linux/bpf.h; programs on cgroups allow a packet with 1 and refuse it with 0.
 */
module Kernel {
  import opened Chain

  datatype Fate = Passed | Dropped | Elsewhere

  function FateOf(hook: Hook, code: nat): Fate {
    match hook
    case Xdp => if code == 2 then Passed else if code == 3 || code == 4 then Elsewhere else Dropped
    case TcIngress => AfterTc(code)
    case TcEgress => AfterTc(code)
    case CgroupIngress => AfterCgroup(code)
    case CgroupEgress => AfterCgroup(code)
  }

  /** Other values leave the packet to the next program, or redirect it. */
  function AfterTc(code: nat): Fate {
    if code == 0 then Passed else if code == 2 then Dropped else Elsewhere
  }

  function AfterCgroup(code: nat): Fate {
    if code == 1 then Passed else if code == 0 then Dropped else Elsewhere
  }
}
