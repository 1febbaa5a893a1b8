/** Small functions on numbers that several modules share. */
module Numbers {

  function Min(x: nat, y: nat): nat { if x <= y then x else y }
}
