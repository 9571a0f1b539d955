/**
 * Worked examples on a four-person tree: R has children A (izq) and B
 * (der), and C is the izq child of A. They show the three walks, the padre
 * chain of C and both versions of the ascendancy report of C.
 */
module Ejemplos {
  import opened Arena
  import opened ArbolBinario
  import AvanzeAbr

  /** The arena of the example: R = 0, A = 1, B = 2, C = 3. */
  function Cuatro(): map<Ref, Nodo>
  {
    map[0 := Nodo("R", "", "", None, Some(1), Some(2)),
        1 := Nodo("A", "", "", Some(0), Some(3), None),
        2 := Nodo("B", "", "", Some(0), None, None),
        3 := Nodo("C", "", "", Some(1), None, None)]
  }

  /** Its shape: R at depth 0, A and B at depth 1, C at depth 2. */
  function FormaCuatro(): Forma
  {
    Forma({0, 1, 2, 3}, map[0 := 0, 1 := 1, 2 := 1, 3 := 2], 3)
  }

  /** The example is a valid tree rooted at R. */
  lemma EjemploValido()
    ensures Valido(Cuatro(), Some(0), FormaCuatro())
  {
    var n, f := Cuatro(), FormaCuatro();
    assert forall r | r in f.miembros :: r == 0 || r == 1 || r == 2 || r == 3;
  }

  /** Preorder from R: R, A, C, B. */
  lemma EjemploPreorden()
    ensures Bien(Cuatro(), FormaCuatro())
    ensures Preorden(Cuatro(), FormaCuatro(), Some(0)) == [0, 1, 3, 2]
  {
    EjemploValido();
    var n, f := Cuatro(), FormaCuatro();
    assert Preorden(n, f, Some(1)) == [1] + Preorden(n, f, Some(3)) + [];
  }

  /** Inorder from R: C, A, R, B. */
  lemma EjemploInorden()
    ensures Bien(Cuatro(), FormaCuatro())
    ensures Inorden(Cuatro(), FormaCuatro(), Some(0)) == [3, 1, 0, 2]
  {
    EjemploValido();
    var n, f := Cuatro(), FormaCuatro();
    assert Inorden(n, f, Some(1)) == Inorden(n, f, Some(3)) + [1];
  }

  /** Postorder from R: C, A, B, R. */
  lemma EjemploPostorden()
    ensures Bien(Cuatro(), FormaCuatro())
    ensures Postorden(Cuatro(), FormaCuatro(), Some(0)) == [3, 1, 2, 0]
  {
    EjemploValido();
    var n, f := Cuatro(), FormaCuatro();
    assert Postorden(n, f, Some(1)) == Postorden(n, f, Some(3)) + [1];
  }

  /** The padre chain of C is C, A, R. */
  lemma EjemploCamino()
    ensures Valido(Cuatro(), Some(0), FormaCuatro())
    ensures Camino(Cuatro(), Some(0), FormaCuatro(), Some(3)) == [3, 1, 0]
  {
    EjemploValido();
    var n, f := Cuatro(), FormaCuatro();
    assert Camino(n, Some(0), f, Some(1)) == [1, 0];
  }

  /**
   * The detailed report of C: R as the root, then A tagged "(padre)" beside
   * its sibling B, untagged, then C tagged "(buscado)" with no sibling.
   */
  lemma EjemploAscendencia()
    ensures Cadena(Cuatro(), [3, 1, 0])
    ensures Niveles(Cuatro(), [3, 1, 0]) ==
              [Nivel(1, 0, Raiz, None, false), Nivel(2, 1, Padre, Some(2), false), Nivel(3, 3, Buscado, None, false)]
  {
    var n, c := Cuatro(), [3, 1, 0];
    assert Eslabon(n, 3, 1) && Eslabon(n, 1, 0);
    var v := Niveles(n, c);
    assert v[0] == NivelDe(n, c, 0);
    assert v[1] == NivelDe(n, c, 1);
    assert v[2] == NivelDe(n, c, 2);
  }

  /**
   * The draft's report of C: first A (the padre of C), beside no sibling,
   * since C is an only child; then R, beside B, the other child of R.
   */
  lemma EjemploAscendenciaBorrador()
    ensures Cadena(Cuatro(), [3, 1, 0])
    ensures AvanzeAbr.Ancestros(Cuatro(), [3, 1, 0]) ==
              [AvanzeAbr.Ancestro(1, 1, None), AvanzeAbr.Ancestro(2, 0, Some(2))]
  {
    var n, c := Cuatro(), [3, 1, 0];
    assert Eslabon(n, 3, 1) && Eslabon(n, 1, 0);
    var v := AvanzeAbr.Ancestros(n, c);
    assert v[0] == AvanzeAbr.AncestroDe(n, c, 0);
    assert v[1] == AvanzeAbr.AncestroDe(n, c, 1);
  }

  /**
   * The detailed report of A: R as the root, then A tagged "(buscado)"
   * beside its sibling B, tagged "(hermano)".
   */
  lemma EjemploAscendenciaConHermano()
    ensures Cadena(Cuatro(), [1, 0])
    ensures Niveles(Cuatro(), [1, 0]) ==
              [Nivel(1, 0, Raiz, None, false), Nivel(2, 1, Buscado, Some(2), true)]
  {
    var n, c := Cuatro(), [1, 0];
    assert Eslabon(n, 1, 0);
    var v := Niveles(n, c);
    assert v[0] == NivelDe(n, c, 0);
    assert v[1] == NivelDe(n, c, 1);
  }
}
