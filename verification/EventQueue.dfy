/** The readiness interests an offload session keeps in its thread's event queue: one direction per descriptor. Adding a
    registered descriptor and changing or deleting an unregistered one fail, as may any call for reasons of the kernel's. */
module EventQueue {

  datatype Interest = In | Out

  class Interests {
    var of: map<int, Interest>

    constructor ()
      ensures of == map[]
    {
      of := map[];
    }

    method Add(fd: int, interest: Interest, works: bool) returns (failed: bool)
      modifies this
      ensures failed <==> !works || fd in old(of)
      ensures of == if failed then old(of) else old(of)[fd := interest]
    {
      failed := !works || fd in of;
      if !failed {
        of := of[fd := interest];
      }
    }

    method Change(fd: int, interest: Interest, works: bool) returns (failed: bool)
      modifies this
      ensures failed <==> !works || fd !in old(of)
      ensures of == if failed then old(of) else old(of)[fd := interest]
    {
      failed := !works || fd !in of;
      if !failed {
        of := of[fd := interest];
      }
    }

    method Delete(fd: int, works: bool) returns (failed: bool)
      modifies this
      ensures failed <==> !works || fd !in old(of)
      ensures of == if failed then old(of) else old(of) - {fd}
    {
      failed := !works || fd !in of;
      if !failed {
        of := of - {fd};
      }
    }
  }
}
