/** Complex numbers over the reals. */
module ComplexNumbers {

  datatype Complex = Complex(re: real, im: real)
  {
    function Conjugate(): Complex {
      Complex(re, -im)
    }

    function RealPart(): Complex {
      Complex(re, 0.0)
    }

    function Times(scale: real): Complex {
      Complex(re * scale, im * scale)
    }

    function Plus(other: Complex): Complex {
      Complex(re + other.re, im + other.im)
    }

    function By(other: Complex): Complex {
      Complex(re * other.re - im * other.im, re * other.im + im * other.re)
    }
  }
}
