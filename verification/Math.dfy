/** Integer arithmetic shared by the models. */
module Math {

  function Min(a: int, b: int): int { if a < b then a else b }
}
