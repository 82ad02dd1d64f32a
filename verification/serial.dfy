/**
 The serial generator. Instead of process-global state, the generator is
 a value threaded through disk construction: it holds the number of
 serials handed out so far, and the next serial is that number in
 decimal. Serials therefore never depend on a disk's backing content or
 specifier.
 */
module Serial {
  import opened Decimal

  datatype Generator = Generator(next: nat)

  /** The serial handed out as the `k`-th one (counting from 0). */
  function SerialOf(k: nat): string {
    Render(k)
  }

  /** Every serial the generator has handed out so far. */
  function Issued(g: Generator): set<string> {
    set k | 0 <= k < g.next :: SerialOf(k)
  }

  /** Hands out the next serial; it is distinct from every serial handed
      out before, and is remembered as issued afterwards. */
  function Next(g: Generator): (r: (string, Generator))
    ensures r.0 !in Issued(g)
    ensures Issued(r.1) == Issued(g) + {r.0}
    ensures g.next < r.1.next
  {
    var s := SerialOf(g.next);
    forall k | 0 <= k < g.next
      ensures SerialOf(k) != s
    {
      RenderInjective(k, g.next);
    }
    var g' := Generator(g.next + 1);
    assert Issued(g') == Issued(g) + {s} by {
      forall x | x in Issued(g')
        ensures x in Issued(g) + {s}
      {
        var k :| 0 <= k < g'.next && x == SerialOf(k);
        if k < g.next {
          assert x in Issued(g);
        }
      }
    }
    (s, g')
  }

  /** Serials handed out by a generator and by any later state of it are
      distinct. */
  lemma LaterSerialsDiffer(g: Generator, h: Generator)
    requires g.next < h.next
    ensures Next(g).0 != Next(h).0
  {
    RenderInjective(g.next, h.next);
  }
}
